/**
 * The in-memory filesystem (fs/vfs.rs): nodes linked by parent and child links. The children of a
 * directory are one list here; the first-child and sibling pointers that spell it out are in VfsNodes.
 */
module FsModel {
  import opened Wrappers
  import opened Names

  type Id = nat

  datatype Kind = Dir | File

  datatype Node = Node(name: Str, kind: Kind, parent: Option<Id>, kids: seq<Id>, data: seq<Byte>)

  /** `next` is a node the allocator has not handed out: freed nodes are not named again. */
  datatype Fs = Fs(nodes: map<Id, Node>, root: Id, next: Id)

  /** What a node and everything under it hold, apart from which nodes they are. */
  datatype Tree = Tree(name: Str, kind: Kind, data: seq<Byte>, kids: seq<Tree>)

  const EMPTY := Fs(map[0 := Node([], Dir, None, [], [])], 0, 1)

  // The shape every operation keeps.

  ghost predicate NameOk(name: Str) { name != [] && |name| < NAME_MAX && SLASH !in name && Utf8(name) }

  ghost predicate NamesDiffer(fs: Fs, ids: seq<Id>)
    requires forall k | k in ids :: k in fs.nodes
  {
    forall i, j | 0 <= i < j < |ids| :: fs.nodes[ids[i]].name != fs.nodes[ids[j]].name
  }

  ghost predicate KidsOk(fs: Fs, id: Id)
    requires id in fs.nodes
  {
    var kids := fs.nodes[id].kids;
    (forall k | k in kids :: k in fs.nodes && fs.nodes[k].parent == Some(id)) && NamesDiffer(fs, kids)
  }

  ghost predicate ParentOk(fs: Fs, id: Id)
    requires id in fs.nodes
  {
    var n := fs.nodes[id];
    n.parent.Some? ==> n.parent.value in fs.nodes && id in fs.nodes[n.parent.value].kids && NameOk(n.name)
  }

  ghost predicate NodeOk(fs: Fs, id: Id)
    requires id in fs.nodes
  {
    var n := fs.nodes[id];
    && id < fs.next
    && (n.kind == File ==> n.kids == [])
    && (n.kind == Dir ==> n.data == [])
    && KidsOk(fs, id)
    && ParentOk(fs, id)
  }

  /** `line` leads by parent links from a node without a parent down to `id`. */
  ghost predicate Line(fs: Fs, line: seq<Id>, id: Id) {
    && |line| > 0
    && line[|line| - 1] == id
    && (forall n | n in line :: n in fs.nodes)
    && fs.nodes[line[0]].parent == None
    && forall i | 0 < i < |line| :: fs.nodes[line[i]].parent == Some(line[i - 1])
  }

  ghost predicate HasLine(fs: Fs, id: Id) { exists line :: Line(fs, line, id) }

  ghost predicate Sound(fs: Fs, id: Id) { id in fs.nodes ==> NodeOk(fs, id) && HasLine(fs, id) }

  /** Consistently linked trees, one of them at the root. */
  ghost predicate Forest(fs: Fs) {
    && (forall id :: Sound(fs, id))
    && fs.root in fs.nodes && fs.nodes[fs.root].kind == Dir && fs.nodes[fs.root].parent == None
  }

  /** One finite tree: every node hangs off the root. */
  ghost predicate Rooted(fs: Fs) {
    Forest(fs) && forall id | id in fs.nodes && id != fs.root :: fs.nodes[id].parent.Some?
  }

  ghost function Lineage(fs: Fs, id: Id): (line: seq<Id>)
    requires HasLine(fs, id)
    ensures Line(fs, line, id)
  {
    var line :| Line(fs, line, id); line
  }

  ghost predicate Under(fs: Fs, top: Id, id: Id)
    requires HasLine(fs, id)
  {
    top in Lineage(fs, id)
  }

  /** The tree `t` is what the nodes from `id` down hold. */
  ghost predicate Depicts(fs: Fs, id: Id, t: Tree)
    decreases t
  {
    && id in fs.nodes
    && fs.nodes[id].name == t.name && fs.nodes[id].kind == t.kind && fs.nodes[id].data == t.data
    && |fs.nodes[id].kids| == |t.kids|
    && forall i | 0 <= i < |t.kids| :: Depicts(fs, fs.nodes[id].kids[i], t.kids[i])
  }

  // Looking things up.

  ghost function FindIn(fs: Fs, ids: seq<Id>, name: Str): (r: Option<Id>)
    requires forall k | k in ids :: k in fs.nodes
    ensures r.Some? ==> r.value in ids && fs.nodes[r.value].name == name
    ensures r.None? ==> forall k | k in ids :: fs.nodes[k].name != name
  {
    if ids == [] then None
    else if fs.nodes[ids[0]].name == name then Some(ids[0])
    else FindIn(fs, ids[1..], name)
  }

  ghost function FindChild(fs: Fs, dir: Id, name: Str): (r: Option<Id>)
    requires Forest(fs) && dir in fs.nodes
    ensures r.Some? ==> r.value in fs.nodes && fs.nodes[r.value].name == name && fs.nodes[r.value].parent == Some(dir)
    ensures r.Some? ==> r.value in fs.nodes[dir].kids
    ensures forall k | k in fs.nodes[dir].kids :: k in fs.nodes
    ensures r.None? ==> forall k | k in fs.nodes[dir].kids :: fs.nodes[k].name != name
  {
    assert Sound(fs, dir);
    FindIn(fs, fs.nodes[dir].kids, name)
  }

  ghost function StepTo(fs: Fs, at: Id, name: Str): (r: Option<Id>)
    requires Forest(fs) && at in fs.nodes
    ensures r.Some? ==> r.value in fs.nodes
  {
    assert Sound(fs, at);
    var n := fs.nodes[at];
    if name == [] || name == DOT then Some(at)
    else if name == DOTDOT then Some(if n.parent.Some? then n.parent.value else at)
    else if n.kind != Dir then None
    else FindChild(fs, at, name)
  }

  ghost function Walk(fs: Fs, at: Id, components: seq<Str>): (r: Option<Id>)
    requires Forest(fs) && at in fs.nodes
    ensures r.Some? ==> r.value in fs.nodes
    decreases |components|
  {
    if components == [] then Some(at)
    else
      var n := StepTo(fs, at, Cut(components[0]));
      if n.None? then None else Walk(fs, n.value, components[1..])
  }

  ghost function Resolve(fs: Fs, base: Id, path: Str): (r: Option<Id>)
    requires Forest(fs) && base in fs.nodes
    ensures r.Some? ==> r.value in fs.nodes
  {
    Walk(fs, if path != [] && path[0] == SLASH then fs.root else base, Split(path))
  }

  ghost function ParentAndLeaf(fs: Fs, base: Id, path: Str): (r: Option<(Id, Str)>)
    requires Forest(fs) && base in fs.nodes
    ensures r.Some? ==> r.value.0 in fs.nodes && |r.value.1| < NAME_MAX && SLASH !in r.value.1
  {
    var p := TrimEnd(path);
    if p == [] then None
    else
      match LastSlash(p)
      case None => Some((base, Cut(p)))
      case Some(0) => Some((fs.root, Cut(p[1..])))
      case Some(i) =>
        var parent := Resolve(fs, base, p[..i]);
        if parent.None? then None else Some((parent.value, Cut(p[i + 1..])))
  }

  /** An existing directory means "into it, under the old name". */
  ghost function Target(fs: Fs, base: Id, dest: Str, src: Id): (r: Option<(Id, Str)>)
    requires Forest(fs) && base in fs.nodes && src in fs.nodes
    ensures r.Some? ==> r.value.0 in fs.nodes && fs.nodes[r.value.0].kind == Dir
  {
    var d := Resolve(fs, base, dest);
    if d.Some? && fs.nodes[d.value].kind == Dir then Some((d.value, fs.nodes[src].name))
    else
      var pl := ParentAndLeaf(fs, base, dest);
      if pl.Some? && fs.nodes[pl.value.0].kind == Dir then pl else None
  }

  /** The path printed for a node: its ancestors' names below the root, or "/" for the root. */
  ghost function NamesOf(fs: Fs, line: seq<Id>): seq<Str>
    requires forall n | n in line :: n in fs.nodes
  {
    seq(|line|, i requires 0 <= i < |line| => fs.nodes[line[i]].name)
  }

  ghost function PathOf(fs: Fs, id: Id): Str
    requires Forest(fs) && id in fs.nodes
  {
    assert Sound(fs, id);
    if id == fs.root then [SLASH] else Join(NamesOf(fs, Lineage(fs, id)[1..]))
  }

  // The link operations.

  /** The node made is `fs.next`. */
  ghost function Alloc(fs: Fs, name: Str, kind: Kind, data: seq<Byte>): Fs {
    fs.(nodes := fs.nodes[fs.next := Node(Cut(name), kind, None, [], data)], next := fs.next + 1)
  }

  ghost function Link(fs: Fs, parent: Id, child: Id): Fs
    requires parent in fs.nodes && child in fs.nodes && parent != child
  {
    var p, c := fs.nodes[parent], fs.nodes[child];
    fs.(nodes := fs.nodes[child := c.(parent := Some(parent))][parent := p.(kids := [child] + p.kids)])
  }

  function Without(ids: seq<Id>, id: Id): (r: seq<Id>)
    ensures forall k | k in r :: k in ids
    ensures forall k | k in ids && k != id :: k in r
  {
    if ids == [] then [] else if ids[0] == id then ids[1..] else [ids[0]] + Without(ids[1..], id)
  }

  ghost function Unlink(fs: Fs, parent: Id, child: Id): Fs
    requires parent in fs.nodes && child in fs.nodes && parent != child
  {
    var p, c := fs.nodes[parent], fs.nodes[child];
    fs.(nodes := fs.nodes[child := c.(parent := None)][parent := p.(kids := Without(p.kids, child))])
  }

  ghost function Subtree(fs: Fs, top: Id): set<Id>
    requires Forest(fs)
  {
    assert forall n | n in fs.nodes :: Sound(fs, n) && HasLine(fs, n);
    set n | n in fs.nodes && Under(fs, top, n)
  }

  ghost function FreeTree(fs: Fs, top: Id): Fs
    requires Forest(fs)
  {
    fs.(nodes := fs.nodes - Subtree(fs, top))
  }

  /** A fresh node holding `t`'s contents under another name, its children copied and linked in turn. */
  ghost function CopyTree(fs: Fs, t: Tree, name: Str): (r: (Fs, Id))
    ensures r.1 == fs.next && r.0.nodes.Keys >= fs.nodes.Keys + {fs.next} && r.0.next > fs.next
    decreases t, |t.kids| + 1
  {
    (CopyKids(Alloc(fs, name, t.kind, t.data), fs.next, t, |t.kids|), fs.next)
  }

  ghost function CopyKids(fs: Fs, copy: Id, t: Tree, n: nat): (r: Fs)
    requires n <= |t.kids| && copy in fs.nodes && copy < fs.next
    ensures r.nodes.Keys >= fs.nodes.Keys && r.next >= fs.next
    decreases t, n
  {
    if n == 0 then fs
    else
      var fs1 := CopyKids(fs, copy, t, n - 1);
      var (fs2, kid) := CopyTree(fs1, t.kids[n - 1], t.kids[n - 1].name);
      Link(fs2, copy, kid)
  }
}
