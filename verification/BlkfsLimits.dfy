/** When saving and loading gives the tree back: exactly when whatever is named "." or ".." is empty. */
module FsLimits {
  import opened Wrappers
  import opened LittleEndian
  import opened Names
  import opened FsModel
  import opened FsTree
  import opened FsOps
  import opened FsCopy
  import opened FsPaths
  import opened FsRuns
  import opened FsImage
  import opened FsRoundTrip

  ghost predicate Ordinary(fs: Fs, id: Id) { id in fs.nodes && (id == fs.root || !Special(fs.nodes[id].name)) }

  ghost predicate CleanAt(fs: Fs, id: Id) {
    id in fs.nodes ==> Ordinary(fs, id) || (fs.nodes[id].kids == [] && fs.nodes[id].data == [])
  }

  /** Nothing named "." or ".." has anything in it. */
  ghost predicate Clean(fs: Fs) { forall id :: CleanAt(fs, id) }

  // Whatever bytes it reads, the reader never puts anything into such a node.

  lemma StepAvoids(fs: Fs, at: Id, name: Str)
    requires Rooted(fs) && Clean(fs) && Ordinary(fs, at) && StepTo(fs, at, name).Some?
    ensures Ordinary(fs, StepTo(fs, at, name).value)
  {
    assert Sound(fs, at);
    assert CleanAt(fs, StepTo(fs, at, name).value);
  }

  lemma {:induction false} WalkAvoids(fs: Fs, at: Id, components: seq<Str>)
    requires Rooted(fs) && Clean(fs) && Ordinary(fs, at) && Walk(fs, at, components).Some?
    ensures Ordinary(fs, Walk(fs, at, components).value)
    decreases |components|
  {
    if components != [] {
      StepAvoids(fs, at, Cut(components[0]));
      WalkAvoids(fs, StepTo(fs, at, Cut(components[0])).value, components[1..]);
    }
  }

  lemma ResolveAvoids(fs: Fs, base: Id, path: Str)
    requires Rooted(fs) && Clean(fs) && Ordinary(fs, base)
    ensures Resolve(fs, base, path).Some? ==> Ordinary(fs, Resolve(fs, base, path).value)
  {
    if Resolve(fs, base, path).Some? {
      WalkAvoids(fs, if path != [] && path[0] == SLASH then fs.root else base, Split(path));
    }
  }

  lemma ParentAvoids(fs: Fs, base: Id, path: Str)
    requires Rooted(fs) && Clean(fs) && Ordinary(fs, base)
    ensures ParentAndLeaf(fs, base, path).Some? ==> Ordinary(fs, ParentAndLeaf(fs, base, path).value.0)
  {
    var p := TrimEnd(path);
    if LastSlash(p).Some? { ResolveAvoids(fs, base, p[..LastSlash(p).value]); }
  }

  /** Still clean, and every node there before is still there under its name. */
  ghost predicate StaysClean(fs: Fs, fs': Fs) {
    && Clean(fs') && fs'.root == fs.root
    && forall n | n in fs.nodes :: n in fs'.nodes && fs'.nodes[n].name == fs.nodes[n].name
  }

  lemma StaysCleanOn(fs: Fs, fs1: Fs, fs2: Fs)
    requires StaysClean(fs, fs1) && StaysClean(fs1, fs2)
    ensures StaysClean(fs, fs2)
  {
  }

  lemma AddClean(fs: Fs, parent: Id, name: Str, kind: Kind)
    requires Rooted(fs) && Clean(fs) && Ordinary(fs, parent) && fs.nodes[parent].kind == Dir
    requires NameOk(name) && FindChild(fs, parent, name).None?
    ensures StaysClean(fs, Add(fs, parent, name, kind))
  {
    AddSafe(fs, parent, name, kind);
    var fs' := Add(fs, parent, name, kind);
    forall id ensures CleanAt(fs', id) { assert CleanAt(fs, id); }
  }

  lemma CreateClean(fs: Fs, base: Id, path: Str, kind: Kind)
    requires Rooted(fs) && Clean(fs) && Ordinary(fs, base) && Utf8(path)
    ensures StaysClean(fs, Create(fs, base, path, kind).1)
  {
    ParentAvoids(fs, base, path);
    ParentAndLeafOk(fs, base, path);
    var pl := ParentAndLeaf(fs, base, path);
    if Create(fs, base, path, kind).0 { AddClean(fs, pl.value.0, pl.value.1, kind); }
  }

  lemma WriteFoundClean(fs: Fs, base: Id, path: Str, data: seq<Byte>)
    requires Rooted(fs) && Clean(fs) && Ordinary(fs, base)
    ensures StaysClean(fs, WriteFound(fs, base, path, data).1)
  {
    ResolveAvoids(fs, base, path);
    var n := Resolve(fs, base, path);
    if n.Some? && fs.nodes[n.value].kind == File { SetDataClean(fs, n.value, data); }
  }

  lemma WriteClean(fs: Fs, base: Id, path: Str, data: seq<Byte>)
    requires Rooted(fs) && Clean(fs) && Ordinary(fs, base) && Utf8(path)
    ensures StaysClean(fs, WriteBytes(fs, base, path, data).1)
  {
    if Resolve(fs, base, path).Some? {
      WriteFoundClean(fs, base, path, data);
    } else {
      CreateSafe(fs, base, path, File);
      CreateClean(fs, base, path, File);
      var fs1 := Create(fs, base, path, File).1;
      WriteFoundClean(fs1, base, path, data);
      StaysCleanOn(fs, fs1, WriteFound(fs1, base, path, data).1);
    }
  }

  lemma SetDataClean(fs: Fs, id: Id, data: seq<Byte>)
    requires Clean(fs) && Ordinary(fs, id)
    ensures StaysClean(fs, SetData(fs, id, data))
  {
    forall n ensures CleanAt(SetData(fs, id, data), n) { assert CleanAt(fs, n); }
  }

  lemma FillFileClean(fs: Fs, buf: seq<Byte>, pos: nat, parent: Id, name: Str, size: nat)
    requires Rooted(fs) && Clean(fs) && Ordinary(fs, parent) && Utf8(name) && pos <= |buf|
    ensures StaysClean(fs, FillFile(fs, buf, pos, parent, name, size).0)
  {
    var data := Bytes(buf, pos, size);
    if size > 0 && data.Some? { WriteClean(fs, parent, name, data.value); }
  }

  lemma ReadFileClean(fs: Fs, buf: seq<Byte>, pos: nat, parent: Id, name: Str, size: nat)
    requires Rooted(fs) && Clean(fs) && Ordinary(fs, parent) && Utf8(name) && pos <= |buf|
    ensures StaysClean(fs, ReadFile(fs, buf, pos, parent, name, size).0)
  {
    CreateSafe(fs, parent, name, File);
    CreateClean(fs, parent, name, File);
    var (made, fs1) := Create(fs, parent, name, File);
    if made {
      FillFileClean(fs1, buf, pos, parent, name, size);
      StaysCleanOn(fs, fs1, FillFile(fs1, buf, pos, parent, name, size).0);
    }
  }

  lemma MakeDirClean(fs: Fs, parent: Option<Id>, name: Str)
    requires Rooted(fs) && Clean(fs) && (parent.Some? ==> Ordinary(fs, parent.value)) && Utf8(name)
    ensures var (fs1, dir) := MakeDir(fs, parent, name); StaysClean(fs, fs1) && (dir.Some? ==> Ordinary(fs1, dir.value))
  {
    if parent.Some? {
      CreateSafe(fs, parent.value, name, Dir);
      CreateClean(fs, parent.value, name, Dir);
      ResolveAvoids(Create(fs, parent.value, name, Dir).1, parent.value, name);
    }
  }

  /**
   * What the reader leaves behind, whether it succeeded or not. Over a range of one value, so that the reader is not
   * unfolded at every use.
   */
  ghost predicate NodeLeaves(fs: Fs, buf: seq<Byte>, pos: nat, parent: Option<Id>, fs': Fs, end: Option<nat>)
    requires Rooted(fs) && (parent.Some? ==> parent.value in fs.nodes)
  {
    forall k: nat | pos <= k <= pos :: ReadNode(fs, buf, k, parent) == (fs', end)
  }

  /** The same for `n` records in a row. */
  ghost predicate KidsLeave(fs: Fs, buf: seq<Byte>, pos: nat, dir: Id, n: nat, fs': Fs)
    requires Rooted(fs) && dir in fs.nodes && pos <= |buf|
  {
    forall k: nat | n <= k <= n :: ReadKids(fs, buf, pos, dir, k).0 == fs'
  }

  lemma KidsLeaveNext(fs: Fs, buf: seq<Byte>, pos: nat, dir: Id, n: nat, fs1: Fs, next: Option<nat>, fs': Fs)
    requires Rooted(fs) && dir in fs.nodes && pos <= |buf| && n > 0 && NodeLeaves(fs, buf, pos, Some(dir), fs1, next)
    requires Rooted(fs1) && dir in fs1.nodes && (next.Some? ==> next.value <= |buf|)
    requires if next.Some? then KidsLeave(fs1, buf, next.value, dir, n - 1, fs') else fs' == fs1
    ensures KidsLeave(fs, buf, pos, dir, n, fs')
  {
    assert ReadNode(fs, buf, pos, Some(dir)) == (fs1, next);
    assert next.Some? ==> ReadKids(fs1, buf, next.value, dir, n - 1).0 == fs';
  }

  lemma NodeLeavesDir(fs: Fs, buf: seq<Byte>, pos: nat, parent: Option<Id>, h: Head, fs1: Fs, dir: Id, fs': Fs)
    requires Rooted(fs) && (parent.Some? ==> parent.value in fs.nodes) && ReadHead(buf, pos) == Some(h) && !h.file
             && h.field.Some?
    requires MakeDir(fs, parent, h.name) == (fs1, Some(dir)) && KidsLeave(fs1, buf, h.end, dir, h.field.value, fs')
    ensures ReadNode(fs, buf, pos, parent).0 == fs'
  {
    assert ReadKids(fs1, buf, h.end, dir, h.field.value).0 == fs';
  }

  lemma {:induction false} ReadNodeClean(fs: Fs, buf: seq<Byte>, pos: nat, parent: Option<Id>)
      returns (fs': Fs, end: Option<nat>)
    requires Rooted(fs) && Clean(fs) && (parent.Some? ==> Ordinary(fs, parent.value))
    ensures NodeLeaves(fs, buf, pos, parent, fs', end) && StaysClean(fs, fs')
    ensures Rooted(fs') && (end.Some? ==> pos < end.value <= |buf|)
    decreases Monus(|buf|, pos), 0
  {
    fs', end := ReadNode(fs, buf, pos, parent).0, ReadNode(fs, buf, pos, parent).1;
    var h := ReadHead(buf, pos);
    if h.Some? {
      if h.value.file {
        if h.value.field.Some? && parent.Some? {
          ReadFileClean(fs, buf, h.value.end, parent.value, h.value.name, h.value.field.value);
        }
      } else {
        MakeDirClean(fs, parent, h.value.name);
        var (fs1, dir) := MakeDir(fs, parent, h.value.name);
        if dir.Some? && h.value.field.Some? {
          var fs2 := ReadKidsClean(fs1, buf, h.value.end, dir.value, h.value.field.value);
          NodeLeavesDir(fs, buf, pos, parent, h.value, fs1, dir.value, fs2);
          StaysCleanOn(fs, fs1, fs2);
        }
      }
    }
  }

  lemma {:induction false} ReadKidsClean(fs: Fs, buf: seq<Byte>, pos: nat, dir: Id, n: nat) returns (fs': Fs)
    requires Rooted(fs) && Clean(fs) && Ordinary(fs, dir) && pos <= |buf|
    ensures KidsLeave(fs, buf, pos, dir, n, fs') && StaysClean(fs, fs')
    decreases Monus(|buf|, pos), n + 1
  {
    if n == 0 {
      fs' := fs;
    } else {
      var fs1, next := ReadNodeClean(fs, buf, pos, Some(dir));
      if next.Some? {
        fs' := ReadKidsClean(fs1, buf, next.value, dir, n - 1);
        StaysCleanOn(fs, fs1, fs');
      } else {
        fs' := fs1;
      }
      KidsLeaveNext(fs, buf, pos, dir, n, fs1, next, fs');
    }
  }

  lemma {:induction false} CleanShowsEmpty(fs: Fs, id: Id, t: Tree)
    requires Rooted(fs) && Clean(fs) && Depicts(fs, id, t)
    ensures SpecialsEmpty(t)
    decreases t
  {
    assert Sound(fs, id);
    var kids := fs.nodes[id].kids;
    forall i | 0 <= i < |t.kids| ensures EmptyIfSpecial(t.kids[i]) && SpecialsEmpty(t.kids[i]) {
      assert Depicts(fs, kids[i], t.kids[i]) && CleanAt(fs, kids[i]);
      CleanShowsEmpty(fs, kids[i], t.kids[i]);
    }
  }

  lemma {:induction false} MirrorKeepsEmpty(t: Tree)
    requires SpecialsEmpty(Mirror(t))
    ensures SpecialsEmpty(t)
    decreases t
  {
    forall i | 0 <= i < |t.kids| ensures EmptyIfSpecial(t.kids[i]) && SpecialsEmpty(t.kids[i]) {
      var j := |t.kids| - 1 - i;
      MirrorAt(t, |t.kids|, j);
      assert EmptyIfSpecial(Mirror(t).kids[j]) && SpecialsEmpty(Mirror(t).kids[j]);
      MirrorKeepsEmpty(t.kids[i]);
    }
  }

  /** What reading back a tree's bytes into a fresh root leaves. */
  ghost function ReadBytes(t: Tree): (r: (Fs, Option<nat>))
    ensures Rooted(r.0)
  {
    BootIsATree([]);
    ReadNode(EMPTY, Serialize(t), 0, None)
  }

  /**
   * Reading a tree's bytes into a fresh root succeeds to the last byte with the same tree, every directory's
   * children in the opposite order, if and only if nothing named "." or ".." has anything in it.
   */
  lemma ReadsBackIff(t: Tree)
    requires RootTree(t)
    ensures ReadBytes(t).1 == Some(|Serialize(t)|) && Depicts(ReadBytes(t).0, ReadBytes(t).0.root, Mirror(t))
            <==> SpecialsEmpty(t)
  {
    BootIsATree([]);
    if SpecialsEmpty(t) {
      var fs := ReadRootBack(t);
      assert ReadNode(EMPTY, Serialize(t), 0, None) == (fs, Some(|Serialize(t)|));
    }
    if Depicts(ReadBytes(t).0, ReadBytes(t).0.root, Mirror(t)) { LoadedRight(t); }
  }

  // Through the disk.

  lemma SuperblockFields(size: nat, rest: seq<Byte>)
    requires size < Pow256(8)
    ensures var disk := Superblock(size) + rest;
            FromLe(disk[0..4]) == MAGIC && FromLe(disk[4..8]) == VERSION && FromLe(disk[8..16]) == size
  {
    var disk := Superblock(size) + rest;
    assert disk[0..4] == Le(MAGIC, 4) && disk[4..8] == Le(VERSION, 4) && disk[8..16] == Le(size, 8);
    U32RoundTrip(MAGIC);
    U32RoundTrip(VERSION);
    LeRoundTrip(size, 8);
  }

  lemma SectorsHold(size: nat)
    ensures size <= Sectors(size) * SECTOR_SIZE
  {
  }

  lemma SavedBytes(disk: seq<Byte>, data: seq<Byte>)
    requires |disk| >= SECTOR_SIZE && SaveBytes(disk, data).Some? && |data| < Pow256(8)
    ensures var disk' := SaveBytes(disk, data).value;
            && FromLe(disk'[0..4]) == MAGIC && FromLe(disk'[4..8]) == VERSION && FromLe(disk'[8..16]) == |data|
            && SECTOR_SIZE + Sectors(|data|) * SECTOR_SIZE <= |disk'|
            && disk'[SECTOR_SIZE..SECTOR_SIZE + |data|] == data
  {
    var size := Sectors(|data|) * SECTOR_SIZE;
    SectorsHold(|data|);
    var rest := data + Zeros(size - |data|) + disk[SECTOR_SIZE + size..];
    assert SaveBytes(disk, data).value == Superblock(|data|) + rest;
    SuperblockFields(|data|, rest);
    assert rest[..|data|] == data;
  }

  /** Loading a saved disk reads exactly the bytes that were written. */
  lemma LoadReadsSaved(disk: seq<Byte>, t: Tree)
    requires |disk| >= SECTOR_SIZE && Save(disk, t).Some? && |Serialize(t)| < Pow256(8)
    ensures Rooted(EMPTY) && Load(EMPTY, Save(disk, t).value) == (ReadBytes(t).1.Some?, ReadBytes(t).0)
  {
    BootIsATree([]);
    SavedBytes(disk, Serialize(t));
  }

  /** Saving and loading into a fresh root gives the mirrored tree, under the same condition. */
  lemma LoadsBackIff(disk: seq<Byte>, t: Tree)
    requires RootTree(t) && |disk| >= SECTOR_SIZE && Save(disk, t).Some? && |Serialize(t)| < Pow256(8)
    ensures Rooted(EMPTY)
    ensures var (ok, fs) := Load(EMPTY, Save(disk, t).value);
            ok && Depicts(fs, fs.root, Mirror(t)) <==> SpecialsEmpty(t)
  {
    LoadReadsSaved(disk, t);
    ReadsBackIff(t);
    if Depicts(ReadBytes(t).0, ReadBytes(t).0.root, Mirror(t)) { LoadedRight(t); }
  }

  lemma LoadedRight(t: Tree)
    requires RootTree(t) && Depicts(ReadBytes(t).0, ReadBytes(t).0.root, Mirror(t))
    ensures SpecialsEmpty(t)
  {
    BootIsATree([]);
    forall id ensures CleanAt(EMPTY, id) {}
    var fs, end := ReadNodeClean(EMPTY, Serialize(t), 0, None);
    assert ReadBytes(t) == (fs, end);
    CleanShowsEmpty(ReadBytes(t).0, ReadBytes(t).0.root, Mirror(t));
    MirrorKeepsEmpty(t);
  }

  // Twice.

  lemma {:induction false} MirrorLoadable(t: Tree)
    requires TreeOk(t) && Fits(t) && SpecialsEmpty(t)
    ensures TreeOk(Mirror(t)) && Fits(Mirror(t)) && SpecialsEmpty(Mirror(t))
    decreases t
  {
    var m := Mirror(t);
    var last := |t.kids| - 1;
    forall i | 0 <= i < |m.kids|
      ensures m.kids[i].name == t.kids[last - i].name
      ensures NameOk(m.kids[i].name) && TreeOk(m.kids[i]) && Fits(m.kids[i]) && EmptyIfSpecial(m.kids[i])
              && SpecialsEmpty(m.kids[i])
    {
      MirrorAt(t, |t.kids|, i);
      MirrorLoadable(t.kids[last - i]);
      assert EmptyIfSpecial(t.kids[last - i]);
    }
  }

  function RecordSize(t: Tree): nat
    decreases t, |t.kids| + 1
  {
    2 + |t.name| + 4 + if t.kind == File then |t.data| else KidsSize(t, 0)
  }

  function KidsSize(t: Tree, n: nat): nat
    requires n <= |t.kids|
    decreases t, |t.kids| - n
  {
    if n == |t.kids| then 0 else RecordSize(t.kids[n]) + KidsSize(t, n + 1)
  }

  lemma {:induction false} SizeIs(t: Tree)
    ensures |Serialize(t)| == RecordSize(t)
    decreases t, |t.kids| + 1
  {
    if t.kind == Dir { KidsSizeIs(t, 0); }
  }

  lemma {:induction false} KidsSizeIs(t: Tree, n: nat)
    requires n <= |t.kids|
    ensures |SerializeKids(t, n)| == KidsSize(t, n)
    decreases t, |t.kids| - n
  {
    if n < |t.kids| {
      SizeIs(t.kids[n]);
      KidsSizeIs(t, n + 1);
    }
  }

  /** The mirrored children from the `k`th on take as many bytes as the first ones of the tree. */
  lemma {:induction false} MirrorKidsSize(t: Tree, k: nat)
    requires k <= |t.kids|
    ensures KidsSize(Mirror(t), k) + KidsSize(t, |t.kids| - k) == KidsSize(t, 0)
    decreases t, |t.kids| - k
  {
    if k < |t.kids| {
      MirrorKidsSize(t, k + 1);
      MirrorAt(t, |t.kids|, k);
      MirrorSize(t.kids[|t.kids| - 1 - k]);
    }
  }

  lemma {:induction false} MirrorSize(t: Tree)
    ensures RecordSize(Mirror(t)) == RecordSize(t)
    decreases t, |t.kids| + 1
  {
    if t.kind == Dir { MirrorKidsSize(t, 0); }
  }

  /** A save, a load, a save and a load give the very tree back, child order included. */
  lemma TwiceIsIdentity(disk: seq<Byte>, t: Tree)
    requires RootTree(t) && SpecialsEmpty(t) && |disk| >= SECTOR_SIZE && Save(disk, t).Some?
             && |Serialize(t)| < Pow256(8)
    ensures Rooted(EMPTY)
    ensures var disk1 := Save(disk, t).value; var (ok, fs) := Load(EMPTY, disk1);
            && ok && Depicts(fs, fs.root, Mirror(t)) && Save(disk1, Mirror(t)).Some?
            && var (ok', fs') := Load(EMPTY, Save(disk1, Mirror(t)).value); ok' && Depicts(fs', fs'.root, t)
  {
    LoadsBackIff(disk, t);
    MirrorLoadable(t);
    MirrorSize(t);
    SizeIs(t);
    SizeIs(Mirror(t));
    var disk1 := Save(disk, t).value;
    LoadsBackIff(disk1, Mirror(t));
    MirrorTwice(t);
  }

  const X: Str := [0x78]

  /** A file inside a directory called "." does not survive: the reader would put it next to the directory. */
  lemma DotLosesItsContents() returns (t: Tree)
    ensures RootTree(t) && !(ReadBytes(t).1.Some? && Depicts(ReadBytes(t).0, ReadBytes(t).0.root, Mirror(t)))
  {
    var file := Tree(X, File, [], []);
    var dot := Tree(DOT, Dir, [], [file]);
    t := Tree([], Dir, [], [dot]);
    assert Utf8(X) && Utf8(DOT);
    assert NameOk(X) && NameOk(DOT);
    assert TreeOk(file) && TreeOk(dot) && Fits(file) && Fits(dot);
    assert !EmptyIfSpecial(t.kids[0]);
    if Depicts(ReadBytes(t).0, ReadBytes(t).0.root, Mirror(t)) { LoadedRight(t); }
  }
}
