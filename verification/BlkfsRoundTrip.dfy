/** Saving a tree and loading it into a fresh root. */
module FsRoundTrip {
  import opened Wrappers
  import opened LittleEndian
  import opened Names
  import opened FsModel
  import opened FsTree
  import opened FsOps
  import opened FsCopy
  import opened FsPaths
  import opened FsRuns
  import opened FsImage

  /** Sizes the format's fields can hold. */
  ghost predicate Fits(t: Tree)
    decreases t
  {
    |t.data| < U32 && |t.kids| < U32 && forall i | 0 <= i < |t.kids| :: Fits(t.kids[i])
  }

  ghost predicate EmptyIfSpecial(t: Tree) { Special(t.name) ==> t.data == [] && t.kids == [] }

  /** Below the top, whatever is named "." or ".." has nothing in it. */
  ghost predicate SpecialsEmpty(t: Tree)
    decreases t
  {
    forall i | 0 <= i < |t.kids| :: EmptyIfSpecial(t.kids[i]) && SpecialsEmpty(t.kids[i])
  }

  // Bytes at a place. Facts about the bytes of a tree, and about what the reader returned, are stated over a
  // range of one position: the verifier then carries them along without unfolding writer and reader.

  ghost predicate At(buf: seq<Byte>, pos: nat, bs: seq<Byte>) {
    pos + |bs| <= |buf| && buf[pos..pos + |bs|] == bs
  }

  lemma AtParts(buf: seq<Byte>, pos: nat, a: seq<Byte>, b: seq<Byte>)
    requires At(buf, pos, a + b)
    ensures At(buf, pos, a) && At(buf, pos + |a|, b)
  {
    var s := buf[pos..pos + |a + b|];
    assert s[..|a|] == a && s[|a|..] == b;
    assert buf[pos..pos + |a|] == s[..|a|] && buf[pos + |a|..pos + |a| + |b|] == s[|a|..];
  }

  /**
   * The record of `t` is at `pos` and ends at `end`. Over a range of one value, so that its bytes are not spelled out
   * at every use.
   */
  ghost predicate Record(buf: seq<Byte>, pos: nat, t: Tree, end: nat) {
    forall k: nat | pos <= k <= pos :: At(buf, k, Serialize(t)) && end == k + |Serialize(t)|
  }

  /** The records of `t`'s children from the `n`th on, likewise. */
  ghost predicate Records(buf: seq<Byte>, pos: nat, t: Tree, n: nat, end: nat) {
    n <= |t.kids| && forall k: nat | pos <= k <= pos ::
        At(buf, k, SerializeKids(t, n)) && end == k + |SerializeKids(t, n)|
  }

  lemma RecordsEnd(buf: seq<Byte>, pos: nat, t: Tree, end: nat)
    requires Records(buf, pos, t, |t.kids|, end)
    ensures end == pos <= |buf|
  {
    assert At(buf, pos, SerializeKids(t, |t.kids|));
  }

  lemma RecordsNext(buf: seq<Byte>, pos: nat, t: Tree, n: nat, end: nat) returns (next: nat)
    requires Records(buf, pos, t, n, end) && n < |t.kids|
    ensures Record(buf, pos, t.kids[n], next) && Records(buf, next, t, n + 1, end)
    ensures pos <= |buf| && next <= |buf|
  {
    assert At(buf, pos, SerializeKids(t, n));
    AtParts(buf, pos, Serialize(t.kids[n]), SerializeKids(t, n + 1));
    next := pos + |Serialize(t.kids[n])|;
  }

  function Amount(t: Tree): nat { if t.kind == File then |t.data| else |t.kids| }

  function Rest(t: Tree): seq<Byte> { if t.kind == File then t.data else SerializeKids(t, 0) }

  lemma SerializeIs(t: Tree)
    ensures Serialize(t) == [KindByte(t.kind), |t.name| % 256] + (t.name + (Le(Amount(t) % U32, 4) + Rest(t)))
  {
  }

  lemma RecordParts(buf: seq<Byte>, pos: nat, kind: Byte, name: Str, field: seq<Byte>, rest: seq<Byte>)
    requires At(buf, pos, [kind, |name| % 256] + (name + (field + rest))) && |name| < NAME_MAX && |field| == 4
    ensures Bytes(buf, pos, 2) == Some([kind, |name|])
    ensures Bytes(buf, pos + 2, |name|) == Some(name)
    ensures Bytes(buf, pos + 2 + |name|, 4) == Some(field)
    ensures At(buf, pos + 2 + |name| + 4, rest)
  {
    var head: seq<Byte> := [kind, |name| % 256];
    AtParts(buf, pos, head, name + (field + rest));
    AtParts(buf, pos + 2, name, field + rest);
    AtParts(buf, pos + 2 + |name|, field, rest);
  }

  lemma U32RoundTrip(n: nat)
    requires n < U32
    ensures FromLe(Le(n, 4)) == n
  {
    assert Pow256(2) == 0x1_0000 && Pow256(4) == 0x100 * (0x100 * Pow256(2));
    LeRoundTrip(n, 4);
  }

  /**
   * A record starts here with this head. Over a range of one value, so that the reader is not unfolded at every use.
   */
  ghost predicate HeadAt(buf: seq<Byte>, pos: nat, h: Head) {
    forall k: nat | pos <= k <= pos :: ReadHead(buf, k) == Some(h)
  }

  lemma HeadFrom(buf: seq<Byte>, pos: nat, kind: Byte, name: Str, field: seq<Byte>)
    requires Bytes(buf, pos, 2) == Some([kind, |name|]) && Bytes(buf, pos + 2, |name|) == Some(name)
    requires Bytes(buf, pos + 2 + |name|, 4) == Some(field) && |name| < NAME_MAX && Utf8(name)
    ensures HeadAt(buf, pos, Head(kind == 1, name, Some(FromLe(field)), pos + 2 + |name| + 4))
  {
  }

  function HeadEnd(pos: nat, t: Tree): nat { pos + 2 + |t.name| + 4 }

  ghost function HeadOf(pos: nat, t: Tree): Head { Head(t.kind == File, t.name, Some(Amount(t)), HeadEnd(pos, t)) }

  lemma FieldRead(t: Tree)
    requires Fits(t)
    ensures FromLe(Le(Amount(t) % U32, 4)) == Amount(t)
  {
    assert Amount(t) % U32 == Amount(t);
    U32RoundTrip(Amount(t));
  }

  /** What the reader finds where a record starts. */
  lemma HeadRead(buf: seq<Byte>, pos: nat, t: Tree, end: nat)
    requires Record(buf, pos, t, end) && |t.name| < NAME_MAX && Utf8(t.name) && Fits(t)
    ensures HeadAt(buf, pos, HeadOf(pos, t)) && HeadEnd(pos, t) <= |buf|
    ensures At(buf, HeadEnd(pos, t), Rest(t)) && end == HeadEnd(pos, t) + |Rest(t)|
    ensures t.kind == Dir ==> Records(buf, HeadEnd(pos, t), t, 0, end)
  {
    var field := Le(Amount(t) % U32, 4);
    RecordStart(buf, pos, t, end);
    RecordParts(buf, pos, KindByte(t.kind), t.name, field, Rest(t));
    FieldRead(t);
    HeadFrom(buf, pos, KindByte(t.kind), t.name, field);
  }

  lemma RecordStart(buf: seq<Byte>, pos: nat, t: Tree, end: nat)
    requires Record(buf, pos, t, end)
    ensures At(buf, pos, [KindByte(t.kind), |t.name| % 256] + (t.name + (Le(Amount(t) % U32, 4) + Rest(t))))
    ensures end == pos + 2 + |t.name| + 4 + |Rest(t)|
  {
    assert At(buf, pos, Serialize(t));
    SerializeIs(t);
  }

  // Simple names.

  lemma {:induction false} NothingToTrim(s: Str)
    requires SLASH !in s
    ensures TrimEnd(s) == s && LastSlash(s).None?
  {
  }

  lemma SimpleName(fs: Fs, dir: Id, name: Str)
    requires Forest(fs) && dir in fs.nodes && NameOk(name)
    ensures ParentAndLeaf(fs, dir, name) == Some((dir, name))
    ensures Resolve(fs, dir, name) == StepTo(fs, dir, name)
  {
    NothingToTrim(name);
    SplitPrefix(name, []);
    assert name + [] == name;
    var cs := Split(name);
    assert cs == [name] && cs[1..] == [];
    var n := StepTo(fs, dir, name);
    assert n.Some? ==> Walk(fs, n.value, cs[1..]) == n;
  }

  lemma CreateSimple(fs: Fs, dir: Id, name: Str, kind: Kind)
    requires Rooted(fs) && dir in fs.nodes && fs.nodes[dir].kind == Dir && NameOk(name)
             && FindChild(fs, dir, name).None?
    ensures Create(fs, dir, name, kind) == (true, Add(fs, dir, name, kind))
  {
    SimpleName(fs, dir, name);
  }

  /** A node just made is found again by its name, unless the name means something else. */
  lemma AddedFound(fs: Fs, dir: Id, name: Str, kind: Kind)
    requires Rooted(fs) && dir in fs.nodes && fs.nodes[dir].kind == Dir && NameOk(name)
             && FindChild(fs, dir, name).None?
    ensures var fs' := Add(fs, dir, name, kind);
            Forest(fs') && dir in fs'.nodes && (Resolve(fs', dir, name) == Some(fs.next) <==> !Special(name))
  {
    AddSafe(fs, dir, name, kind);
    var fs' := Add(fs, dir, name, kind);
    SimpleName(fs', dir, name);
    ChildFound(fs', dir, fs.next);
    assert Sound(fs, dir);
  }

  // One record.

  /** A node was put into `dir`, and nothing else that was there changed. */
  ghost predicate Added(fs: Fs, fs': Fs, dir: Id) {
    && Rooted(fs') && fs'.root == fs.root && fs'.next > fs.next && fs.next !in fs.nodes && fs.next in fs'.nodes
    && dir in fs.nodes && dir in fs'.nodes && fs'.nodes[fs.next].parent == Some(dir)
    && fs'.nodes[dir] == fs.nodes[dir].(kids := [fs.next] + fs.nodes[dir].kids)
    && forall n | n in fs.nodes && n != dir :: n in fs'.nodes && fs'.nodes[n] == fs.nodes[n]
  }

  ghost predicate Readable(fs: Fs, dir: Id, t: Tree) {
    && Rooted(fs) && dir in fs.nodes && fs.nodes[dir].kind == Dir && NameOk(t.name) && FindChild(fs, dir, t.name).None?
    && TreeOk(t) && Fits(t) && EmptyIfSpecial(t) && SpecialsEmpty(t)
  }

  lemma AddIsAdded(fs: Fs, dir: Id, name: Str, kind: Kind)
    requires Rooted(fs) && dir in fs.nodes && fs.nodes[dir].kind == Dir && NameOk(name)
             && FindChild(fs, dir, name).None?
    ensures Added(fs, Add(fs, dir, name, kind), dir)
    ensures Add(fs, dir, name, kind).nodes[fs.next] == Node(name, kind, Some(dir), [], [])
  {
    AddSafe(fs, dir, name, kind);
  }

  lemma ReadFileBack(fs: Fs, buf: seq<Byte>, pos: nat, dir: Id, t: Tree)
    requires Readable(fs, dir, t) && t.kind == File && At(buf, pos, t.data)
    ensures var (fs', end) := ReadFile(fs, buf, pos, dir, t.name, |t.data|);
            end == Some(pos + |t.data|) && Added(fs, fs', dir) && Depicts(fs', fs.next, Mirror(t))
  {
    CreateSimple(fs, dir, t.name, File);
    AddIsAdded(fs, dir, t.name, File);
    var fs1 := Add(fs, dir, t.name, File);
    if t.data != [] {
      AddedFound(fs, dir, t.name, File);
      SetDataSafe(fs1, fs.next, t.data);
      assert WriteBytes(fs1, dir, t.name, t.data) == (true, SetData(fs1, fs.next, t.data));
    }
  }

  /** The first `n` children of `t` are in `dir`, which was empty, newest first. */
  ghost predicate Loaded(fs: Fs, fs': Fs, dir: Id, t: Tree, n: nat) {
    && n <= |t.kids| && Rooted(fs') && fs'.root == fs.root && fs'.next >= fs.next && dir in fs.nodes && dir in fs'.nodes
    && fs.nodes[dir].kids == [] && fs.nodes[dir].kind == Dir
    && fs'.nodes[dir] == fs.nodes[dir].(kids := fs'.nodes[dir].kids)
    && Shows(fs', fs'.nodes[dir].kids, MirrorKids(t, n))
    && forall n | n in fs.nodes && n != dir :: n in fs'.nodes && fs'.nodes[n] == fs.nodes[n]
  }

  lemma NextReadable(fs0: Fs, fs: Fs, dir: Id, t: Tree, n: nat)
    requires Loaded(fs0, fs, dir, t, n) && n < |t.kids| && TreeOk(t) && Fits(t) && SpecialsEmpty(t)
    ensures Readable(fs, dir, t.kids[n])
  {
    var name := t.kids[n].name;
    var kids := fs.nodes[dir].kids;
    var found := FindChild(fs, dir, name);
    forall i | 0 <= i < |kids| ensures kids[i] in fs.nodes && fs.nodes[kids[i]].name != name {
      MirrorAt(t, n, i);
      assert Depicts(fs, kids[i], MirrorKids(t, n)[i]);
    }
    assert forall k | k in kids :: fs.nodes[k].name != name;
  }

  lemma StillShown(fs: Fs, fs': Fs, dir: Id, k: Id, t: Tree)
    requires Rooted(fs) && Added(fs, fs', dir) && k in fs.nodes[dir].kids && Depicts(fs, k, t)
    ensures Depicts(fs', k, t)
  {
    assert Sound(fs, dir);
    LineageOfParent(fs, k);
    ChildIsNew(fs, k);
    forall n | n in fs.nodes && n != dir ensures SameContent(fs, fs', n) {}
    DepictsKept(fs, fs', k, t, dir);
  }

  lemma LoadedStep(fs0: Fs, fs: Fs, dir: Id, t: Tree, n: nat, fs': Fs)
    requires Loaded(fs0, fs, dir, t, n) && n < |t.kids| && Added(fs, fs', dir)
             && Depicts(fs', fs.next, Mirror(t.kids[n]))
    ensures Loaded(fs0, fs', dir, t, n + 1)
  {
    var kids := fs.nodes[dir].kids;
    forall i | 0 <= i < |kids| ensures Depicts(fs', kids[i], MirrorKids(t, n)[i]) {
      StillShown(fs, fs', dir, kids[i], MirrorKids(t, n)[i]);
    }
    ShowsOneMore(fs', fs.next, Mirror(t.kids[n]), kids, MirrorKids(t, n));
  }

  // The reader, one step at a time.

  /**
   * Reading the record at `pos` succeeds. Over a range of one value, so that the reader is not unfolded at every use.
   */
  ghost predicate NodeRead(fs: Fs, buf: seq<Byte>, pos: nat, parent: Option<Id>, fs': Fs, end: nat)
    requires Rooted(fs) && (parent.Some? ==> parent.value in fs.nodes)
  {
    forall k: nat | pos <= k <= pos :: ReadNode(fs, buf, k, parent) == (fs', Some(end))
  }

  /** Reading `n` records in a row succeeds, likewise. */
  ghost predicate KidsRead(fs: Fs, buf: seq<Byte>, pos: nat, dir: Id, n: nat, fs': Fs, end: nat)
    requires Rooted(fs) && dir in fs.nodes && pos <= |buf|
  {
    forall k: nat | n <= k <= n :: ReadKids(fs, buf, pos, dir, k) == (fs', Some(end))
  }

  lemma ReadKidsNone(fs: Fs, buf: seq<Byte>, pos: nat, dir: Id)
    requires Rooted(fs) && dir in fs.nodes && pos <= |buf|
    ensures KidsRead(fs, buf, pos, dir, 0, fs, pos)
  {
  }

  lemma ReadKidsNext(fs: Fs, buf: seq<Byte>, pos: nat, dir: Id, n: nat, fs1: Fs, next: nat, fs': Fs, end: nat)
    requires Rooted(fs) && dir in fs.nodes && pos <= |buf| && n > 0 && NodeRead(fs, buf, pos, Some(dir), fs1, next)
    requires Rooted(fs1) && dir in fs1.nodes && next <= |buf| && KidsRead(fs1, buf, next, dir, n - 1, fs', end)
    ensures KidsRead(fs, buf, pos, dir, n, fs', end)
  {
    assert ReadNode(fs, buf, pos, Some(dir)) == (fs1, Some(next));
    assert ReadKids(fs1, buf, next, dir, n - 1) == (fs', Some(end));
  }

  lemma ReadNodeFile(fs: Fs, buf: seq<Byte>, pos: nat, dir: Id, h: Head, fs': Fs, end: nat)
    requires Rooted(fs) && dir in fs.nodes && HeadAt(buf, pos, h) && h.file && h.field.Some?
    requires Utf8(h.name) && h.end <= |buf| && ReadFile(fs, buf, h.end, dir, h.name, h.field.value) == (fs', Some(end))
    ensures NodeRead(fs, buf, pos, Some(dir), fs', end)
  {
    assert ReadHead(buf, pos) == Some(h);
  }

  lemma ReadNodeDir(fs: Fs, buf: seq<Byte>, pos: nat, parent: Option<Id>, h: Head, fs1: Fs, dir: Id, fs': Fs, end: nat)
    requires Rooted(fs) && (parent.Some? ==> parent.value in fs.nodes)
    requires HeadAt(buf, pos, h) && !h.file && h.field.Some? && Utf8(h.name) && h.end <= |buf|
    requires MakeDir(fs, parent, h.name) == (fs1, Some(dir))
    requires Rooted(fs1) && dir in fs1.nodes && KidsRead(fs1, buf, h.end, dir, h.field.value, fs', end)
    ensures NodeRead(fs, buf, pos, parent, fs', end)
  {
    assert ReadHead(buf, pos) == Some(h);
    assert ReadKids(fs1, buf, h.end, dir, h.field.value) == (fs', Some(end));
  }

  ghost predicate Loadable(t: Tree) { TreeOk(t) && Fits(t) && SpecialsEmpty(t) }

  lemma ReadNextBack(fs0: Fs, fs: Fs, buf: seq<Byte>, pos: nat, dir: Id, t: Tree, n: nat, end: nat)
      returns (fs1: Fs, next: nat)
    requires Loaded(fs0, fs, dir, t, n) && Loadable(t) && Records(buf, pos, t, n, end) && n < |t.kids|
    ensures NodeRead(fs, buf, pos, Some(dir), fs1, next) && Loaded(fs0, fs1, dir, t, n + 1)
    ensures Records(buf, next, t, n + 1, end) && next <= |buf|
    decreases t, |t.kids| - n, 0
  {
    next := RecordsNext(buf, pos, t, n, end);
    NextReadable(fs0, fs, dir, t, n);
    fs1 := ReadBack(fs, buf, pos, dir, t.kids[n], next);
    LoadedStep(fs0, fs, dir, t, n, fs1);
  }

  lemma {:induction false} ReadKidsBack(fs0: Fs, fs: Fs, buf: seq<Byte>, pos: nat, dir: Id, t: Tree, left: nat,
      end: nat) returns (fs': Fs)
    requires left <= |t.kids| && Loaded(fs0, fs, dir, t, |t.kids| - left) && Loadable(t)
    requires Records(buf, pos, t, |t.kids| - left, end) && pos <= |buf|
    ensures KidsRead(fs, buf, pos, dir, left, fs', end)
    ensures Loaded(fs0, fs', dir, t, |t.kids|)
    decreases t, left, 1
  {
    if left > 0 {
      var fs1, next := ReadNextBack(fs0, fs, buf, pos, dir, t, |t.kids| - left, end);
      fs' := ReadKidsBack(fs0, fs1, buf, next, dir, t, left - 1, end);
      ReadKidsNext(fs, buf, pos, dir, left, fs1, next, fs', end);
    } else {
      fs' := fs;
      RecordsEnd(buf, pos, t, end);
      ReadKidsNone(fs, buf, pos, dir);
    }
  }

  lemma LoadedShows(fs: Fs, fs': Fs, dir: Id, t: Tree)
    requires Loaded(fs, fs', dir, t, |t.kids|) && t.kind == Dir && t.data == [] == fs.nodes[dir].data
             && fs.nodes[dir].name == t.name
    ensures Depicts(fs', dir, Mirror(t))
  {
    var m := Mirror(t);
    forall i | 0 <= i < |m.kids| ensures Depicts(fs', fs'.nodes[dir].kids[i], m.kids[i]) {}
  }

  lemma MakeDirBack(fs: Fs, dir: Id, t: Tree) returns (fs1: Fs, made: Id)
    requires Readable(fs, dir, t) && t.kind == Dir
    ensures MakeDir(fs, Some(dir), t.name) == (fs1, Some(made)) && Added(fs, fs1, dir) && made in fs1.nodes
    ensures fs1.nodes[fs.next] == Node(t.name, Dir, Some(dir), [], [])
    ensures Special(t.name) || made == fs.next
  {
    CreateSimple(fs, dir, t.name, Dir);
    AddIsAdded(fs, dir, t.name, Dir);
    AddedFound(fs, dir, t.name, Dir);
    fs1 := Add(fs, dir, t.name, Dir);
    SimpleName(fs1, dir, t.name);
    assert Sound(fs1, dir);
    made := Resolve(fs1, dir, t.name).value;
  }

  lemma ReadDirBack(fs: Fs, buf: seq<Byte>, pos: nat, dir: Id, t: Tree, end: nat, fs1: Fs, made: Id) returns (fs': Fs)
    requires Readable(fs, dir, t) && t.kind == Dir && Records(buf, pos, t, 0, end) && pos <= |buf|
    requires Added(fs, fs1, dir) && fs1.nodes[fs.next] == Node(t.name, Dir, Some(dir), [], []) && made in fs1.nodes
    requires Special(t.name) || made == fs.next
    ensures KidsRead(fs1, buf, pos, made, |t.kids|, fs', end)
    ensures Added(fs, fs', dir) && Depicts(fs', fs.next, Mirror(t))
    decreases t, |t.kids| + 1
  {
    if Special(t.name) {
      fs' := fs1;
      RecordsEnd(buf, pos, t, end);
      ReadKidsNone(fs1, buf, pos, made);
    } else {
      assert Loaded(fs1, fs1, made, t, 0);
      fs' := ReadKidsBack(fs1, fs1, buf, pos, made, t, |t.kids|, end);
      LoadedShows(fs1, fs', made, t);
    }
  }

  lemma FileFromHead(fs: Fs, buf: seq<Byte>, pos: nat, dir: Id, t: Tree, h: Head, end: nat) returns (fs': Fs)
    requires Readable(fs, dir, t) && t.kind == File && HeadAt(buf, pos, h) && At(buf, h.end, t.data) && h.end <= |buf|
    requires h == Head(true, t.name, Some(|t.data|), h.end) && end == h.end + |t.data|
    ensures NodeRead(fs, buf, pos, Some(dir), fs', end)
    ensures Added(fs, fs', dir) && Depicts(fs', fs.next, Mirror(t))
  {
    assert Utf8(t.name);
    ReadFileBack(fs, buf, h.end, dir, t);
    fs' := ReadFile(fs, buf, h.end, dir, t.name, |t.data|).0;
    ReadNodeFile(fs, buf, pos, dir, h, fs', end);
  }

  lemma {:induction false} ReadBack(fs: Fs, buf: seq<Byte>, pos: nat, dir: Id, t: Tree, end: nat) returns (fs': Fs)
    requires Readable(fs, dir, t) && Record(buf, pos, t, end)
    ensures NodeRead(fs, buf, pos, Some(dir), fs', end)
    ensures Added(fs, fs', dir) && Depicts(fs', fs.next, Mirror(t))
    decreases t, |t.kids| + 2
  {
    HeadRead(buf, pos, t, end);
    var h := HeadOf(pos, t);
    if t.kind == File {
      fs' := FileFromHead(fs, buf, pos, dir, t, h, end);
    } else {
      var fs1, made := MakeDirBack(fs, dir, t);
      fs' := ReadDirBack(fs, buf, h.end, dir, t, end, fs1, made);
      ReadNodeDir(fs, buf, pos, Some(dir), h, fs1, made, fs', end);
    }
  }

  // The whole tree.

  /** A tree that could be what the root holds. */
  ghost predicate RootTree(t: Tree) { t.name == [] && t.kind == Dir && TreeOk(t) && Fits(t) }

  lemma ReadRootBack(t: Tree) returns (fs': Fs)
    requires RootTree(t) && SpecialsEmpty(t)
    ensures Rooted(EMPTY) && NodeRead(EMPTY, Serialize(t), 0, None, fs', |Serialize(t)|)
    ensures Rooted(fs') && Depicts(fs', fs'.root, Mirror(t))
  {
    BootIsATree([]);
    var buf := Serialize(t);
    assert buf[0..|buf|] == buf;
    assert Record(buf, 0, t, |buf|);
    HeadRead(buf, 0, t, |buf|);
    var h := HeadOf(0, t);
    assert Loaded(EMPTY, EMPTY, EMPTY.root, t, 0);
    fs' := ReadKidsBack(EMPTY, EMPTY, buf, h.end, EMPTY.root, t, |t.kids|, |buf|);
    LoadedShows(EMPTY, fs', EMPTY.root, t);
    ReadNodeDir(EMPTY, buf, 0, None, h, EMPTY, EMPTY.root, fs', |buf|);
  }
}
