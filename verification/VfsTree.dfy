/** The link operations keep the forest: what each does to every node's line of ancestors. */
module FsTree {
  import opened Wrappers
  import opened Names
  import opened FsModel

  // Lines.

  lemma LinePrefix(fs: Fs, line: seq<Id>, id: Id, k: nat)
    requires Line(fs, line, id) && k < |line|
    ensures Line(fs, line[..k + 1], line[k])
  {
    assert forall n | n in line[..k + 1] :: n in line;
  }

  lemma {:induction false} LineUnique(fs: Fs, a: seq<Id>, b: seq<Id>, id: Id)
    requires Line(fs, a, id) && Line(fs, b, id)
    ensures a == b
    decreases |a|
  {
    var m, n := |a| - 1, |b| - 1;
    assert m > 0 ==> fs.nodes[a[m]].parent == Some(a[m - 1]);
    assert n > 0 ==> fs.nodes[b[n]].parent == Some(b[n - 1]);
    if m > 0 && n > 0 {
      LinePrefix(fs, a, id, m - 1);
      LinePrefix(fs, b, id, n - 1);
      LineUnique(fs, a[..m], b[..n], a[m - 1]);
      assert a == a[..m] + [id] && b == b[..n] + [id];
    } else {
      assert a == [id] && b == [id];
    }
  }

  /** The line a forest gives is the only one. */
  lemma LineageIs(fs: Fs, line: seq<Id>, id: Id)
    requires Line(fs, line, id)
    ensures HasLine(fs, id) && Lineage(fs, id) == line
  {
    LineUnique(fs, Lineage(fs, id), line, id);
  }

  lemma LineageOfParent(fs: Fs, id: Id)
    requires Forest(fs) && id in fs.nodes
    ensures HasLine(fs, id)
    ensures fs.nodes[id].parent == None ==> Lineage(fs, id) == [id]
    ensures fs.nodes[id].parent.Some? ==>
              && fs.nodes[id].parent.value in fs.nodes && HasLine(fs, fs.nodes[id].parent.value)
              && Lineage(fs, id) == Lineage(fs, fs.nodes[id].parent.value) + [id]
  {
    assert Sound(fs, id);
    var line := Lineage(fs, id);
    var n := |line| - 1;
    if n > 0 {
      LinePrefix(fs, line, id, n - 1);
      LineageIs(fs, line[..n], line[n - 1]);
      assert line == line[..n] + [id];
    } else {
      assert line == [id];
    }
  }

  lemma NodesHaveLines(fs: Fs)
    requires Forest(fs)
    ensures forall n | n in fs.nodes :: HasLine(fs, n)
  {
    forall n | n in fs.nodes ensures HasLine(fs, n) { assert Sound(fs, n); }
  }

  lemma LineDistinct(fs: Fs, line: seq<Id>, id: Id, i: nat, j: nat)
    requires Line(fs, line, id) && i < |line| && j < |line| && line[i] == line[j]
    ensures i == j
  {
    LinePrefix(fs, line, id, i);
    LinePrefix(fs, line, id, j);
    LineUnique(fs, line[..i + 1], line[..j + 1], line[i]);
  }

  /** Only the first node of a line has no parent. */
  lemma TopIsFirst(fs: Fs, line: seq<Id>, id: Id, top: Id)
    requires Line(fs, line, id) && top in line && fs.nodes[top].parent == None
    ensures line[0] == top
  {
    forall k | 0 < k < |line| ensures fs.nodes[line[k]].parent != None {
      assert fs.nodes[line[k]].parent == Some(line[k - 1]);
    }
    var k := IndexIn(line, top);
  }

  lemma LineKept(fs: Fs, fs': Fs, line: seq<Id>, id: Id)
    requires Line(fs, line, id)
    requires forall n | n in line :: n in fs'.nodes && fs'.nodes[n].parent == fs.nodes[n].parent
    ensures Line(fs', line, id)
  {
  }

  /** Being under is transitive along parent links. */
  lemma UnderParent(fs: Fs, top: Id, id: Id)
    requires Forest(fs) && id in fs.nodes && fs.nodes[id].parent.Some?
    ensures fs.nodes[id].parent.value in fs.nodes
    ensures HasLine(fs, id) && HasLine(fs, fs.nodes[id].parent.value)
    ensures Under(fs, top, id) <==> top == id || Under(fs, top, fs.nodes[id].parent.value)
  {
    LineageOfParent(fs, id);
  }

  // Alloc.

  lemma AllocSafe(fs: Fs, name: Str, kind: Kind, data: seq<Byte>)
    requires Forest(fs) && (kind == Dir ==> data == [])
    ensures Forest(Alloc(fs, name, kind, data)) && fs.next !in fs.nodes
  {
    var fs' := Alloc(fs, name, kind, data);
    assert Sound(fs, fs.next);
    forall id ensures Sound(fs', id) {
      assert Sound(fs, id);
      if id == fs.next {
        assert Line(fs', [id], id);
      } else if id in fs.nodes {
        LineKept(fs, fs', Lineage(fs, id), id);
        assert forall k | k in fs.nodes[id].kids :: fs'.nodes[k] == fs.nodes[k];
      }
    }
    assert Sound(fs, fs.root);
  }

  // Link.

  ghost predicate Linkable(fs: Fs, parent: Id, child: Id) {
    && Forest(fs) && parent in fs.nodes && child in fs.nodes
    && fs.nodes[parent].kind == Dir && fs.nodes[child].parent == None && child != fs.root
    && NameOk(fs.nodes[child].name)
    && HasLine(fs, parent) && !Under(fs, child, parent)
    && forall k | k in fs.nodes[parent].kids :: k in fs.nodes && fs.nodes[k].name != fs.nodes[child].name
  }

  lemma LinkLine(fs: Fs, parent: Id, child: Id, id: Id)
    requires Linkable(fs, parent, child) && id in fs.nodes && parent != child
    ensures HasLine(fs, id) && HasLine(Link(fs, parent, child), id)
    ensures Lineage(Link(fs, parent, child), id)
         == if Under(fs, child, id) then Lineage(fs, parent) + Lineage(fs, id) else Lineage(fs, id)
  {
    assert Sound(fs, id);
    var fs' := Link(fs, parent, child);
    var line, up := Lineage(fs, id), Lineage(fs, parent);
    if child in line {
      TopIsFirst(fs, line, id, child);
      var whole := up + line;
      forall i | 0 < i < |whole| ensures fs'.nodes[whole[i]].parent == Some(whole[i - 1]) {
        if i > |up| { LineDistinct2(fs, line, id, i - |up|); }
      }
      assert Line(fs', whole, id);
      LineageIs(fs', whole, id);
    } else {
      LineKept(fs, fs', line, id);
      LineageIs(fs', line, id);
    }
  }

  /** Past the first place, a line never names its first node again. */
  lemma LineDistinct2(fs: Fs, line: seq<Id>, id: Id, i: nat)
    requires Line(fs, line, id) && 0 < i < |line|
    ensures line[i] != line[0]
  {
    if line[i] == line[0] { LineDistinct(fs, line, id, 0, i); }
  }

  lemma NotItself(fs: Fs, parent: Id, child: Id)
    requires Linkable(fs, parent, child)
    ensures parent != child
  {
  }

  /** Children that keep name and parent keep a directory's list in order. */
  lemma KidsKept(fs: Fs, fs': Fs, id: Id)
    requires id in fs.nodes && id in fs'.nodes && KidsOk(fs, id) && fs'.nodes[id].kids == fs.nodes[id].kids
    requires forall k | k in fs.nodes[id].kids :: k in fs'.nodes && SameLabel(fs, fs', k)
    ensures KidsOk(fs', id)
  {
    var kids := fs.nodes[id].kids;
    forall i, j | 0 <= i < j < |kids| ensures fs'.nodes[kids[i]].name != fs'.nodes[kids[j]].name {
      assert SameLabel(fs, fs', kids[i]) && SameLabel(fs, fs', kids[j]);
    }
  }

  ghost predicate SameLabel(fs: Fs, fs': Fs, n: Id) {
    n in fs.nodes && n in fs'.nodes && fs'.nodes[n].name == fs.nodes[n].name
        && fs'.nodes[n].parent == fs.nodes[n].parent
  }

  lemma LinkKids(fs: Fs, parent: Id, child: Id, id: Id)
    requires Linkable(fs, parent, child) && parent != child && id in fs.nodes
    ensures KidsOk(Link(fs, parent, child), id)
  {
    var fs' := Link(fs, parent, child);
    assert Sound(fs, id);
    var kids := fs.nodes[id].kids;
    forall k | k in kids ensures SameLabel(fs, fs', k) { assert fs.nodes[k].parent == Some(id); }
    if id == parent {
      forall i, j | 0 <= i < j < |kids| ensures fs'.nodes[kids[i]].name != fs'.nodes[kids[j]].name {
        assert SameLabel(fs, fs', kids[i]) && SameLabel(fs, fs', kids[j]);
      }
      assert NamesDiffer(fs', [child] + kids);
    } else {
      KidsKept(fs, fs', id);
    }
  }

  lemma LinkNode(fs: Fs, parent: Id, child: Id, id: Id)
    requires Linkable(fs, parent, child) && parent != child && id in fs.nodes
    ensures NodeOk(Link(fs, parent, child), id)
  {
    assert Sound(fs, id);
    LinkKids(fs, parent, child, id);
  }

  lemma LinkSafe(fs: Fs, parent: Id, child: Id)
    requires Linkable(fs, parent, child)
    ensures parent != child && Forest(Link(fs, parent, child))
  {
    NotItself(fs, parent, child);
    var fs' := Link(fs, parent, child);
    forall id ensures Sound(fs', id) {
      if id in fs'.nodes {
        LinkLine(fs, parent, child, id);
        LinkNode(fs, parent, child, id);
      }
    }
  }

  // Unlink.

  lemma UnlinkLine(fs: Fs, parent: Id, child: Id, id: Id, k: nat)
    requires Forest(fs) && child in fs.nodes && fs.nodes[child].parent == Some(parent) && parent in fs.nodes
             && parent != child
    requires id in fs.nodes && HasLine(fs, id)
    requires Under(fs, child, id) ==> k < |Lineage(fs, id)| && Lineage(fs, id)[k] == child
    ensures HasLine(Unlink(fs, parent, child), id)
    ensures Lineage(Unlink(fs, parent, child), id) == if Under(fs, child, id) then Lineage(fs, id)[k..]
            else Lineage(fs, id)
  {
    var fs' := Unlink(fs, parent, child);
    var line := Lineage(fs, id);
    if child in line {
      var rest := line[k..];
      forall i | 0 < i < |rest| ensures fs'.nodes[rest[i]].parent == Some(rest[i - 1]) {
        if line[k + i] == child { LineDistinct(fs, line, id, k, k + i); }
      }
      assert Line(fs', rest, id);
      LineageIs(fs', rest, id);
    } else {
      LineKept(fs, fs', line, id);
      LineageIs(fs', line, id);
    }
  }

  lemma {:induction false} WithoutKeepsOrder(fs: Fs, ids: seq<Id>, id: Id)
    requires (forall k | k in ids :: k in fs.nodes) && NamesDiffer(fs, ids)
    ensures id !in Without(ids, id) && NamesDiffer(fs, Without(ids, id))
  {
    if ids != [] {
      var rest := ids[1..];
      assert forall i, j | 0 <= i < j < |rest| :: rest[i] == ids[i + 1] && rest[j] == ids[j + 1];
      assert forall k | k in rest :: fs.nodes[ids[0]].name != fs.nodes[k].name;
      WithoutKeepsOrder(fs, rest, id);
    }
  }

  lemma UnlinkKids(fs: Fs, parent: Id, child: Id, id: Id)
    requires Forest(fs) && child in fs.nodes && fs.nodes[child].parent == Some(parent) && parent in fs.nodes
             && parent != child
    requires id in fs.nodes
    ensures KidsOk(Unlink(fs, parent, child), id)
  {
    var fs' := Unlink(fs, parent, child);
    assert Sound(fs, id);
    var kids := fs.nodes[id].kids;
    if id == parent {
      WithoutKeepsOrder(fs, kids, child);
      var rest := Without(kids, child);
      forall k | k in rest ensures SameLabel(fs, fs', k) {}
      forall i, j | 0 <= i < j < |rest| ensures fs'.nodes[rest[i]].name != fs'.nodes[rest[j]].name {
        assert SameLabel(fs, fs', rest[i]) && SameLabel(fs, fs', rest[j]);
      }
    } else {
      forall k | k in kids ensures SameLabel(fs, fs', k) { assert fs.nodes[k].parent == Some(id); }
      KidsKept(fs, fs', id);
    }
  }

  lemma UnlinkNode(fs: Fs, parent: Id, child: Id, id: Id)
    requires Forest(fs) && child in fs.nodes && fs.nodes[child].parent == Some(parent) && parent in fs.nodes
             && parent != child
    requires id in fs.nodes
    ensures NodeOk(Unlink(fs, parent, child), id)
  {
    assert Sound(fs, id);
    UnlinkKids(fs, parent, child, id);
  }

  lemma UnlinkSafe(fs: Fs, parent: Id, child: Id)
    requires Forest(fs) && child in fs.nodes && fs.nodes[child].parent == Some(parent) && parent in fs.nodes
    ensures parent != child && Forest(Unlink(fs, parent, child))
  {
    LineageOfParent(fs, child);
    LineDistinct(fs, Lineage(fs, child), child, |Lineage(fs, child)| - 1, |Lineage(fs, child)| - 1);
    ParentIsOther(fs, child);
    var fs' := Unlink(fs, parent, child);
    forall id ensures Sound(fs', id) {
      if id in fs'.nodes {
        assert Sound(fs, id);
        var k := if Under(fs, child, id) then IndexIn(Lineage(fs, id), child) else 0;
        UnlinkLine(fs, parent, child, id, k);
        UnlinkNode(fs, parent, child, id);
      }
    }
  }

  ghost function IndexIn(ids: seq<Id>, id: Id): (k: nat)
    requires id in ids
    ensures k < |ids| && ids[k] == id
  {
    if ids[0] == id then 0 else 1 + IndexIn(ids[1..], id)
  }

  lemma ParentIsOther(fs: Fs, id: Id)
    requires Forest(fs) && id in fs.nodes && fs.nodes[id].parent.Some?
    ensures fs.nodes[id].parent.value != id
  {
    LineageOfParent(fs, id);
  }

  // Free.

  lemma FreeNode(fs: Fs, top: Id, id: Id)
    requires Forest(fs) && top in fs.nodes && fs.nodes[top].parent == None && id in FreeTree(fs, top).nodes
    ensures NodeOk(FreeTree(fs, top), id) && HasLine(FreeTree(fs, top), id)
  {
    var fs' := FreeTree(fs, top);
    NodesHaveLines(fs);
    assert Sound(fs, id);
    forall n | n in Lineage(fs, id) ensures n in fs'.nodes { FreeKeepsLine(fs, top, id, n); }
    LineKept(fs, fs', Lineage(fs, id), id);
    forall k | k in fs.nodes[id].kids ensures k in fs'.nodes && SameLabel(fs, fs', k) { UnderParent(fs, top, k); }
    KidsKept(fs, fs', id);
    if fs.nodes[id].parent.Some? { UnderParent(fs, top, id); }
  }

  lemma FreeSafe(fs: Fs, top: Id)
    requires Forest(fs) && top in fs.nodes && fs.nodes[top].parent == None && top != fs.root
    ensures Forest(FreeTree(fs, top))
    ensures forall n | n in FreeTree(fs, top).nodes :: FreeTree(fs, top).nodes[n] == fs.nodes[n]
  {
    var fs' := FreeTree(fs, top);
    forall id ensures Sound(fs', id) {
      if id in fs'.nodes { FreeNode(fs, top, id); }
    }
    LineageOfParent(fs, fs.root);
  }

  lemma FreeKeepsLine(fs: Fs, top: Id, id: Id, n: Id)
    requires Forest(fs) && id in fs.nodes && HasLine(fs, id) && !Under(fs, top, id) && n in Lineage(fs, id)
    ensures n in fs.nodes && HasLine(fs, n) && !Under(fs, top, n)
  {
    var line := Lineage(fs, id);
    var k := IndexIn(line, n);
    LinePrefix(fs, line, id, k);
    LineageIs(fs, line[..k + 1], n);
  }
}
