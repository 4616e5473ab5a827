/** What the nodes hold: a copy is the same tree with every directory's children in the opposite order. */
module FsCopy {
  import opened Wrappers
  import opened Names
  import opened FsModel
  import opened FsTree
  import opened FsOps

  /** The same tree, every directory listed backwards. */
  function Mirror(t: Tree): (m: Tree)
    ensures m.name == t.name && m.kind == t.kind && m.data == t.data && |m.kids| == |t.kids|
    decreases t, |t.kids| + 1
  {
    Tree(t.name, t.kind, t.data, MirrorKids(t, |t.kids|))
  }

  function MirrorKids(t: Tree, n: nat): (ms: seq<Tree>)
    requires n <= |t.kids|
    ensures |ms| == n
    decreases t, n
  {
    if n == 0 then [] else [Mirror(t.kids[n - 1])] + MirrorKids(t, n - 1)
  }

  lemma {:induction false} MirrorAt(t: Tree, n: nat, i: nat)
    requires i < n <= |t.kids|
    ensures MirrorKids(t, n)[i] == Mirror(t.kids[n - 1 - i])
    decreases n
  {
    if i > 0 { MirrorAt(t, n - 1, i - 1); }
  }

  /** Mirroring twice gives the tree back. */
  lemma {:induction false} MirrorTwice(t: Tree)
    ensures Mirror(Mirror(t)) == t
  {
    var m := Mirror(t);
    forall i | 0 <= i < |t.kids| ensures Mirror(m).kids[i] == t.kids[i] {
      MirrorAt(m, |t.kids|, i);
      MirrorAt(t, |t.kids|, |t.kids| - 1 - i);
      MirrorTwice(t.kids[i]);
    }
    assert Mirror(m).kids == t.kids;
  }

  /** A tree that can stand in the filesystem under some name. */
  ghost predicate TreeOk(t: Tree)
    decreases t
  {
    && (t.kind == File ==> t.kids == [])
    && (t.kind == Dir ==> t.data == [])
    && (forall i | 0 <= i < |t.kids| :: NameOk(t.kids[i].name) && TreeOk(t.kids[i]))
    && (forall i, j | 0 <= i < j < |t.kids| :: t.kids[i].name != t.kids[j].name)
  }

  lemma {:induction false} DepictedIsOk(fs: Fs, id: Id, t: Tree)
    requires Forest(fs) && Depicts(fs, id, t)
    ensures TreeOk(t)
    decreases t
  {
    assert Sound(fs, id);
    var kids := fs.nodes[id].kids;
    forall i | 0 <= i < |t.kids| ensures NameOk(t.kids[i].name) && TreeOk(t.kids[i]) {
      assert Depicts(fs, kids[i], t.kids[i]);
      assert Sound(fs, kids[i]);
      DepictedIsOk(fs, kids[i], t.kids[i]);
    }
    forall i, j | 0 <= i < j < |t.kids| ensures t.kids[i].name != t.kids[j].name {
      assert Depicts(fs, kids[i], t.kids[i]) && Depicts(fs, kids[j], t.kids[j]);
    }
  }

  /** A node holds at most one tree. */
  lemma {:induction false} DepictsOne(fs: Fs, id: Id, t: Tree, u: Tree)
    requires Depicts(fs, id, t) && Depicts(fs, id, u)
    ensures t == u
    decreases t
  {
    forall i | 0 <= i < |t.kids| ensures t.kids[i] == u.kids[i] {
      assert Depicts(fs, fs.nodes[id].kids[i], t.kids[i]) && Depicts(fs, fs.nodes[id].kids[i], u.kids[i]);
      DepictsOne(fs, fs.nodes[id].kids[i], t.kids[i], u.kids[i]);
    }
  }

  /** Every node of a forest holds some tree. */
  lemma {:induction false} HoldsATree(fs: Fs, id: Id, above: set<Id>) returns (t: Tree)
    requires Forest(fs) && id in fs.nodes && HasLine(fs, id)
    requires above == set n | n in Lineage(fs, id) && n != id
    ensures Depicts(fs, id, t)
    decreases fs.nodes.Keys - above
  {
    assert Sound(fs, id);
    var n := fs.nodes[id];
    var trees: seq<Tree> := [];
    var above' := set m | m in Lineage(fs, id);
    while |trees| < |n.kids|
      invariant |trees| <= |n.kids|
      invariant forall i | 0 <= i < |trees| :: Depicts(fs, n.kids[i], trees[i])
    {
      var k := n.kids[|trees|];
      LineageOfParent(fs, k);
      ChildIsNew(fs, k);
      assert (set m | m in Lineage(fs, k) && m != k) == above';
      assert id in above' && id !in above && above <= above';
      var u := HoldsATree(fs, k, above');
      trees := trees + [u];
    }
    t := Tree(n.name, n.kind, n.data, trees);
  }

  lemma ChildIsNew(fs: Fs, k: Id)
    requires Forest(fs) && k in fs.nodes && fs.nodes[k].parent.Some?
    ensures fs.nodes[k].parent.value in fs.nodes && HasLine(fs, fs.nodes[k].parent.value)
    ensures k !in Lineage(fs, fs.nodes[k].parent.value)
  {
    LineageOfParent(fs, k);
    var line := Lineage(fs, k);
    var up := Lineage(fs, fs.nodes[k].parent.value);
    forall i | 0 <= i < |up| ensures up[i] != k {
      assert line[i] == up[i] && line[|up|] == k;
      LineDistinctPair(fs, line, k, i, |up|);
    }
  }

  lemma LineDistinctPair(fs: Fs, line: seq<Id>, id: Id, i: nat, j: nat)
    requires Line(fs, line, id) && i < j < |line|
    ensures line[i] != line[j]
  {
    if line[i] == line[j] { LineDistinct(fs, line, id, i, j); }
  }

  // Depictions that survive a change elsewhere.

  ghost predicate SameContent(fs: Fs, fs': Fs, n: Id) {
    && n in fs.nodes && n in fs'.nodes
    && fs'.nodes[n].name == fs.nodes[n].name && fs'.nodes[n].kind == fs.nodes[n].kind
    && fs'.nodes[n].data == fs.nodes[n].data && fs'.nodes[n].kids == fs.nodes[n].kids
  }

  /** Only `x` changed, and it is not under `id`. */
  lemma {:induction false} DepictsKept(fs: Fs, fs': Fs, id: Id, t: Tree, x: Id)
    requires Forest(fs) && Depicts(fs, id, t) && HasLine(fs, id)
    requires forall n | n in fs.nodes && n != x :: SameContent(fs, fs', n)
    requires x in fs.nodes ==> HasLine(fs, x) && !Under(fs, id, x)
    ensures Depicts(fs', id, t)
    decreases t
  {
    assert Sound(fs, id);
    var kids := fs.nodes[id].kids;
    LineageOfParent(fs, id);
    assert id != x;
    assert SameContent(fs, fs', id);
    forall i | 0 <= i < |t.kids| ensures Depicts(fs', kids[i], t.kids[i]) {
      assert Depicts(fs, kids[i], t.kids[i]);
      LineageOfParent(fs, kids[i]);
      if x in fs.nodes { UnderKid(fs, id, kids[i], x); }
      DepictsKept(fs, fs', kids[i], t.kids[i], x);
    }
  }

  lemma UnderKid(fs: Fs, id: Id, kid: Id, x: Id)
    requires Forest(fs) && kid in fs.nodes && fs.nodes[kid].parent == Some(id) && x in fs.nodes && HasLine(fs, x)
    ensures Under(fs, kid, x) ==> Under(fs, id, x)
  {
    if Under(fs, kid, x) {
      var line := Lineage(fs, x);
      var i := IndexIn(line, kid);
      LinePrefix(fs, line, x, i);
      LineageIs(fs, line[..i + 1], kid);
      LineageOfParent(fs, kid);
      assert Lineage(fs, kid)[|Lineage(fs, kid)| - 2] == id;
      assert line[..i + 1][i - 1] == id;
    }
  }

  // Copying.

  ghost predicate Extends(fs: Fs, fs': Fs) {
    fs'.root == fs.root && forall n | n in fs.nodes :: n in fs'.nodes && fs'.nodes[n] == fs.nodes[n]
  }

  lemma LineageExtends(fs: Fs, fs': Fs, id: Id)
    requires Extends(fs, fs') && id in fs.nodes && HasLine(fs, id)
    ensures HasLine(fs', id) && Lineage(fs', id) == Lineage(fs, id)
  {
    LineKept(fs, fs', Lineage(fs, id), id);
    LineageIs(fs', Lineage(fs, id), id);
  }

  lemma DepictsExtends(fs: Fs, fs': Fs, id: Id, t: Tree)
    requires Forest(fs) && Extends(fs, fs') && Depicts(fs, id, t)
    ensures Depicts(fs', id, t)
  {
    assert Sound(fs, id) && Sound(fs, fs.next);
    forall n | n in fs.nodes ensures SameContent(fs, fs', n) {}
    DepictsKept(fs, fs', id, t, fs.next);
  }

  /** All that is new is under `top`. */
  ghost predicate FreshUnder(fs: Fs, fs': Fs, top: Id) {
    forall n | n in fs'.nodes && n !in fs.nodes :: HasLine(fs', n) && Under(fs', top, n)
  }

  ghost predicate Shows(fs: Fs, ids: seq<Id>, ts: seq<Tree>) {
    |ids| == |ts| && forall i | 0 <= i < |ids| :: Depicts(fs, ids[i], ts[i])
  }

  lemma ShowsOneMore(fs: Fs, id: Id, t: Tree, ids: seq<Id>, ts: seq<Tree>)
    requires Depicts(fs, id, t) && Shows(fs, ids, ts)
    ensures Shows(fs, [id] + ids, [t] + ts)
  {
  }

  /** The first `n` children of `t` are copied and linked under `copy`, newest first. */
  ghost predicate Copied(fs: Fs, fs': Fs, copy: Id, t: Tree, name: Str, n: nat) {
    && n <= |t.kids|
    && Forest(fs') && Extends(fs, fs') && copy !in fs.nodes && copy in fs'.nodes && copy < fs'.next
    && fs'.nodes[copy] == Node(Cut(name), t.kind, None, fs'.nodes[copy].kids, t.data)
    && Shows(fs', fs'.nodes[copy].kids, MirrorKids(t, n))
    && FreshUnder(fs, fs', copy)
  }

  lemma CopyStarts(fs: Fs, t: Tree, name: Str)
    requires Forest(fs) && TreeOk(t)
    ensures Copied(fs, Alloc(fs, name, t.kind, t.data), fs.next, t, name, 0)
  {
    AllocSafe(fs, name, t.kind, t.data);
    var fs' := Alloc(fs, name, t.kind, t.data);
    LineageOfParent(fs', fs.next);
  }

  lemma OldKidsNamed(fs: Fs, fs': Fs, copy: Id, t: Tree, name: Str, n: nat, k: Id)
    requires Copied(fs, fs', copy, t, name, n) && n < |t.kids| && TreeOk(t) && k in fs'.nodes[copy].kids
    ensures k in fs'.nodes && fs'.nodes[k].name != t.kids[n].name
  {
    var i := IndexIn(fs'.nodes[copy].kids, k);
    MirrorAt(t, n, i);
    assert Depicts(fs', k, MirrorKids(t, n)[i]);
  }

  lemma KidLinkable(fs: Fs, fs1: Fs, copy: Id, t: Tree, name: Str, n: nat, fs2: Fs, kid: Id)
    requires Copied(fs, fs1, copy, t, name, n) && n < |t.kids| && TreeOk(t)
    requires Copied(fs1, fs2, kid, t.kids[n], t.kids[n].name, |t.kids[n].kids|)
    ensures Linkable(fs2, copy, kid) && copy != kid && Lineage(fs2, copy) == [copy]
  {
    LineageOfParent(fs2, copy);
    forall k | k in fs2.nodes[copy].kids ensures k in fs2.nodes && fs2.nodes[k].name != fs2.nodes[kid].name {
      OldKidsNamed(fs, fs1, copy, t, name, n, k);
    }
  }

  /** A whole copy of a child shows the child's mirror image. */
  lemma CopiedDepicts(fs: Fs, fs': Fs, copy: Id, t: Tree, name: Str)
    requires Copied(fs, fs', copy, t, name, |t.kids|)
    ensures Depicts(fs', copy, Mirror(t).(name := Cut(name)))
  {
    var m := Mirror(t).(name := Cut(name));
    forall i | 0 <= i < |m.kids| ensures Depicts(fs', fs'.nodes[copy].kids[i], m.kids[i]) {}
  }

  lemma LinkedDepicts(fs: Fs, copy: Id, kid: Id, id: Id, t: Tree)
    requires Linkable(fs, copy, kid) && copy != kid && Depicts(fs, id, t) && HasLine(fs, id) && !Under(fs, id, copy)
    ensures Depicts(Link(fs, copy, kid), id, t)
  {
    var fs' := Link(fs, copy, kid);
    forall n | n in fs.nodes && n != copy ensures SameContent(fs, fs', n) {}
    DepictsKept(fs, fs', id, t, copy);
  }

  lemma NewKidShows(fs1: Fs, copy: Id, t: Tree, fs2: Fs, kid: Id)
    requires Copied(fs1, fs2, kid, t, t.name, |t.kids|) && |t.name| < NAME_MAX
    requires Linkable(fs2, copy, kid) && copy != kid
    ensures Depicts(Link(fs2, copy, kid), kid, Mirror(t))
  {
    CopiedDepicts(fs1, fs2, kid, t, t.name);
    LineageOfParent(fs2, kid);
    LinkedDepicts(fs2, copy, kid, kid, Mirror(t));
  }

  lemma OldKidShows(fs1: Fs, copy: Id, fs2: Fs, kid: Id, k: Id, t: Tree)
    requires Forest(fs1) && Extends(fs1, fs2) && copy in fs1.nodes && k in fs1.nodes[copy].kids && Depicts(fs1, k, t)
    requires Linkable(fs2, copy, kid) && copy != kid && Lineage(fs2, copy) == [copy]
    ensures Depicts(Link(fs2, copy, kid), k, t)
  {
    assert Sound(fs1, copy);
    DepictsExtends(fs1, fs2, k, t);
    LineageOfParent(fs2, k);
    ParentIsOther(fs2, k);
    LinkedDepicts(fs2, copy, kid, k, t);
  }

  lemma CopyLinksShow(fs: Fs, fs1: Fs, copy: Id, t: Tree, name: Str, n: nat, fs2: Fs, kid: Id)
    requires Copied(fs, fs1, copy, t, name, n) && n < |t.kids| && TreeOk(t)
    requires Copied(fs1, fs2, kid, t.kids[n], t.kids[n].name, |t.kids[n].kids|)
    requires Linkable(fs2, copy, kid) && copy != kid && Lineage(fs2, copy) == [copy]
    ensures var fs3 := Link(fs2, copy, kid);
            Shows(fs3, fs3.nodes[copy].kids, MirrorKids(t, n + 1))
  {
    var fs3 := Link(fs2, copy, kid);
    var was := fs1.nodes[copy].kids;
    assert fs2.nodes[copy] == fs1.nodes[copy];
    NewKidShows(fs1, copy, t.kids[n], fs2, kid);
    forall i | 0 <= i < n ensures Depicts(fs3, was[i], MirrorKids(t, n)[i]) {
      OldKidShows(fs1, copy, fs2, kid, was[i], MirrorKids(t, n)[i]);
    }
    ShowsOneMore(fs3, kid, Mirror(t.kids[n]), was, MirrorKids(t, n));
  }

  lemma CopyLinksUnder(fs: Fs, fs1: Fs, copy: Id, fs2: Fs, kid: Id)
    requires Forest(fs1) && FreshUnder(fs, fs1, copy) && FreshUnder(fs1, fs2, kid) && Extends(fs1, fs2)
             && copy in fs1.nodes
    requires Linkable(fs2, copy, kid) && copy != kid && Lineage(fs2, copy) == [copy]
    ensures FreshUnder(fs, Link(fs2, copy, kid), copy)
  {
    var fs3 := Link(fs2, copy, kid);
    forall n | n in fs3.nodes && n !in fs.nodes ensures HasLine(fs3, n) && Under(fs3, copy, n) {
      LinkLine(fs2, copy, kid, n);
      if n in fs1.nodes { LineageExtends(fs1, fs2, n); }
    }
  }

  lemma CopyStep(fs: Fs, fs1: Fs, copy: Id, t: Tree, name: Str, n: nat, fs2: Fs, kid: Id)
    requires Copied(fs, fs1, copy, t, name, n) && n < |t.kids| && TreeOk(t)
    requires Copied(fs1, fs2, kid, t.kids[n], t.kids[n].name, |t.kids[n].kids|) && kid == fs1.next
    ensures copy != kid && Copied(fs, Link(fs2, copy, kid), copy, t, name, n + 1)
  {
    KidLinkable(fs, fs1, copy, t, name, n, fs2, kid);
    LinkSafe(fs2, copy, kid);
    CopyLinksShow(fs, fs1, copy, t, name, n, fs2, kid);
    CopyLinksUnder(fs, fs1, copy, fs2, kid);
  }

  lemma {:induction false} CopyTreeSafe(fs: Fs, t: Tree, name: Str)
    requires Forest(fs) && TreeOk(t)
    ensures Copied(fs, CopyTree(fs, t, name).0, fs.next, t, name, |t.kids|)
    decreases t, |t.kids| + 1
  {
    CopyStarts(fs, t, name);
    CopyKidsSafe(fs, Alloc(fs, name, t.kind, t.data), fs.next, t, name, |t.kids|);
  }

  lemma {:induction false} CopyKidsSafe(fs: Fs, fs1: Fs, copy: Id, t: Tree, name: Str, n: nat)
    requires Forest(fs) && TreeOk(t) && n <= |t.kids| && Copied(fs, fs1, copy, t, name, 0)
    ensures Copied(fs, CopyKids(fs1, copy, t, n), copy, t, name, n)
    decreases t, n
  {
    if n > 0 {
      CopyKidsSafe(fs, fs1, copy, t, name, n - 1);
      var before := CopyKids(fs1, copy, t, n - 1);
      var kid := t.kids[n - 1];
      CopyTreeSafe(before, kid, kid.name);
      CopyStep(fs, before, copy, t, name, n - 1, CopyTree(before, kid, kid.name).0, before.next);
    }
  }

  // The copy operation.

  ghost function TreeAt(fs: Fs, id: Id): (t: Tree)
    requires Forest(fs) && id in fs.nodes
    ensures Depicts(fs, id, t) && TreeOk(t)
  {
    assert Sound(fs, id);
    assert exists t :: Depicts(fs, id, t) by { var t := HoldsATree(fs, id, set n | n in Lineage(fs, id) && n != id); }
    var t :| Depicts(fs, id, t);
    DepictedIsOk(fs, id, t);
    t
  }

  ghost function Copy(fs: Fs, base: Id, src: Str, dest: Str): (r: (bool, Fs))
    requires Rooted(fs) && base in fs.nodes
  {
    var s := Resolve(fs, base, src);
    if s.None? then (false, fs)
    else
      var target := Target(fs, base, dest, s.value);
      if target.None? || target.value.1 == [] then (false, fs)
      else
        var (parent, leaf) := target.value;
        assert Sound(fs, parent);
        if FindChild(fs, parent, leaf).Some? then (false, fs)
        else if fs.nodes[s.value].kind == Dir && Under(fs, s.value, parent) then (false, fs)
        else (true, CopyNode(fs, s.value, parent, leaf))
  }

  ghost function CopyNode(fs: Fs, src: Id, parent: Id, leaf: Str): Fs
    requires Forest(fs) && src in fs.nodes && parent in fs.nodes
  {
    CopyTreeSafe(fs, TreeAt(fs, src), leaf);
    Link(CopyTree(fs, TreeAt(fs, src), leaf).0, parent, fs.next)
  }

  /**
   * A copy leaves every old node alone but for the new entry, adds only nodes under the new one, and
   * holds the source's tree mirrored, under the new name.
   */
  lemma CopyNodeSafe(fs: Fs, src: Id, parent: Id, leaf: Str)
    requires Rooted(fs) && src in fs.nodes && parent in fs.nodes && fs.nodes[parent].kind == Dir
    requires NameOk(leaf) && FindChild(fs, parent, leaf).None?
    ensures var fs' := CopyNode(fs, src, parent, leaf);
            && Rooted(fs') && fs'.root == fs.root
            && fs.next !in fs.nodes
            && (forall n | n in fs.nodes ::
                  && n in fs'.nodes
                  && fs'.nodes[n] == if n == parent then fs.nodes[n].(kids := [fs.next] + fs.nodes[n].kids)
                                     else fs.nodes[n])
            && FreshUnder(fs, fs', fs.next)
            && TreeAt(fs', fs.next) == Mirror(TreeAt(fs, src)).(name := leaf)
  {
    var t := TreeAt(fs, src);
    var fs1 := CopyTree(fs, t, leaf).0;
    CopyTreeSafe(fs, t, leaf);
    FreshIsLinkable(fs, parent, fs1, fs.next);
    LinkSafe(fs1, parent, fs.next);
    CopiedDepicts(fs, fs1, fs.next, t, leaf);
    LineageOfParent(fs1, fs.next);
    LinkedDepicts(fs1, parent, fs.next, fs.next, Mirror(t).(name := leaf));
    CopyRooted(fs, fs1, parent);
    TreeIs(CopyNode(fs, src, parent, leaf), fs.next, Mirror(t).(name := leaf));
  }

  lemma TreeIs(fs: Fs, id: Id, t: Tree)
    requires Forest(fs) && Depicts(fs, id, t)
    ensures id in fs.nodes && TreeAt(fs, id) == t
  {
    DepictsOne(fs, id, TreeAt(fs, id), t);
  }

  lemma CopyRootedAt(fs: Fs, fs1: Fs, parent: Id, n: Id)
    requires Forest(fs1) && FreshUnder(fs, fs1, fs.next) && n in fs1.nodes && n !in fs.nodes
    requires Linkable(fs1, parent, fs.next) && parent != fs.next
    ensures var fs' := Link(fs1, parent, fs.next);
            HasLine(fs', n) && Under(fs', fs.next, n) && fs'.nodes[n].parent.Some?
  {
    assert HasLine(fs1, n) && Under(fs1, fs.next, n);
    LinkLine(fs1, parent, fs.next, n);
    if n != fs.next { LineageOfParent(fs1, n); }
  }

  lemma CopyRooted(fs: Fs, fs1: Fs, parent: Id)
    requires Rooted(fs) && Forest(fs1) && Extends(fs, fs1) && FreshUnder(fs, fs1, fs.next) && parent in fs.nodes
    requires Linkable(fs1, parent, fs.next) && parent != fs.next && Forest(Link(fs1, parent, fs.next))
             && fs.next !in fs.nodes
    ensures Rooted(Link(fs1, parent, fs.next)) && FreshUnder(fs, Link(fs1, parent, fs.next), fs.next)
  {
    var fs' := Link(fs1, parent, fs.next);
    forall n | n in fs'.nodes && n !in fs.nodes
      ensures HasLine(fs', n) && Under(fs', fs.next, n) && fs'.nodes[n].parent.Some?
    {
      CopyRootedAt(fs, fs1, parent, n);
    }
    forall n | n in fs'.nodes && n != fs'.root ensures fs'.nodes[n].parent.Some? {
      if n in fs.nodes { LinkKeepsParent(fs, fs1, parent, n); }
    }
  }

  lemma LinkKeepsParent(fs: Fs, fs1: Fs, parent: Id, n: Id)
    requires Extends(fs, fs1) && parent in fs.nodes && fs.next in fs1.nodes && fs.next !in fs.nodes && n in fs.nodes
    ensures n in Link(fs1, parent, fs.next).nodes && Link(fs1, parent, fs.next).nodes[n].parent == fs.nodes[n].parent
  {
  }

  // What a moved node holds.

  lemma UnlinkKeepsTree(fs: Fs, id: Id, t: Tree)
    requires Rooted(fs) && id in fs.nodes && id != fs.root && Depicts(fs, id, t)
    ensures fs.nodes[id].parent.Some? && fs.nodes[id].parent.value in fs.nodes && fs.nodes[id].parent.value != id
    ensures Depicts(Unlink(fs, fs.nodes[id].parent.value, id), id, t)
  {
    assert Sound(fs, id);
    var parent := fs.nodes[id].parent.value;
    ParentIsOther(fs, id);
    ChildIsNew(fs, id);
    var fs' := Unlink(fs, parent, id);
    forall n | n in fs.nodes && n != parent ensures SameContent(fs, fs', n) {}
    DepictsKept(fs, fs', id, t, parent);
  }

  lemma SetNameKeepsTree(fs: Fs, id: Id, name: Str, t: Tree)
    requires Forest(fs) && id in fs.nodes && fs.nodes[id].parent == None && Depicts(fs, id, t)
    ensures Depicts(SetName(fs, id, name), id, t.(name := Cut(name)))
  {
    var fs' := SetName(fs, id, name);
    assert Sound(fs, id);
    LineageOfParent(fs, id);
    var kids := fs.nodes[id].kids;
    forall n | n in fs.nodes && n != id ensures SameContent(fs, fs', n) {}
    forall i | 0 <= i < |t.kids| ensures Depicts(fs', kids[i], t.kids[i]) {
      assert Depicts(fs, kids[i], t.kids[i]);
      LineageOfParent(fs, kids[i]);
      ParentIsOther(fs, kids[i]);
      DepictsKept(fs, fs', kids[i], t.kids[i], id);
    }
  }

  /** A moved node takes everything under it along, in the same order. */
  lemma MoveKeepsTree(fs: Fs, id: Id, parent: Id, leaf: Str, t: Tree)
    requires Movable(fs, id, parent, leaf) && Depicts(fs, id, t)
    ensures Depicts(MoveNode(fs, id, parent, leaf), id, t.(name := leaf))
  {
    var fs1 := CutOff(fs, id, parent, leaf);
    UnlinkKeepsTree(fs, id, t);
    SetNameKeepsTree(fs1, id, leaf, t);
    MoveLinkable(fs, id, parent, leaf);
    var fs2 := SetName(fs1, id, leaf);
    LineageOfParent(fs2, id);
    LinkedDepicts(fs2, parent, id, id, t.(name := leaf));
  }
}
