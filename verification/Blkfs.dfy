/** The on-disk format (fs/blkfs.rs): the whole tree written out, and a reader that replays it as filesystem calls. */
module FsImage {
  import opened Wrappers
  import opened LittleEndian
  import opened Names
  import opened FsModel
  import opened FsTree
  import opened FsOps
  import opened FsCopy
  import opened FsRuns

  const U32 := 0x1_0000_0000
  const SECTOR_SIZE := 512
  const MAGIC := 0x5346_4e41
  const VERSION := 1

  // Writing.

  function KindByte(k: Kind): Byte { if k == Dir then 0 else 1 }

  function Serialize(t: Tree): (bs: seq<Byte>)
    ensures |bs| >= 6
    decreases t, |t.kids| + 1
  {
    [KindByte(t.kind), |t.name| % 256] + t.name
    + (if t.kind == File then Le(|t.data| % U32, 4) + t.data else Le(|t.kids| % U32, 4) + SerializeKids(t, 0))
  }

  /** The children from the `n`th on. */
  function SerializeKids(t: Tree, n: nat): (bs: seq<Byte>)
    requires n <= |t.kids|
    decreases t, |t.kids| - n
  {
    if n == |t.kids| then [] else Serialize(t.kids[n]) + SerializeKids(t, n + 1)
  }

  // Reading.

  function Bytes(buf: seq<Byte>, pos: nat, len: nat): Option<seq<Byte>> {
    if pos + len <= |buf| then Some(buf[pos..pos + len]) else None
  }

  /** The start of a record; `field` is its size or child count, where the bytes for it are there. */
  datatype Head = Head(file: bool, name: Str, field: Option<nat>, end: nat)

  ghost function ReadHead(buf: seq<Byte>, pos: nat): (r: Option<Head>)
    ensures r.Some? ==> Utf8(r.value.name) && pos < r.value.end && (r.value.field.Some? ==> r.value.end <= |buf|)
  {
    var start := Bytes(buf, pos, 2);
    if start.None? || start.value[1] >= NAME_MAX then None
    else
      var name := Bytes(buf, pos + 2, start.value[1]);
      if name.None? || !Utf8(name.value) then None
      else
        var at := pos + 2 + |name.value|;
        var field := Bytes(buf, at, 4);
        Some(Head(start.value[0] == 1, name.value, if field.Some? then Some(FromLe(field.value)) else None, at + 4))
  }

  /**
   * Replays one record under `parent`, or as the root itself. The filesystem it leaves, and where the
   * next record starts -- or None, with whatever was created so far still there.
   */
  ghost function ReadNode(fs: Fs, buf: seq<Byte>, pos: nat, parent: Option<Id>): (r: (Fs, Option<nat>))
    requires Rooted(fs) && (parent.Some? ==> parent.value in fs.nodes)
    ensures Rooted(r.0) && (forall n | n in fs.nodes :: n in r.0.nodes)
    ensures r.1.Some? ==> pos < r.1.value <= |buf|
    decreases Monus(|buf|, pos), 0
  {
    var h := ReadHead(buf, pos);
    if h.None? then (fs, None)
    else if h.value.file then
      if h.value.field.None? || parent.None? then (fs, None)
      else ReadFile(fs, buf, h.value.end, parent.value, h.value.name, h.value.field.value)
    else
      var (fs1, dir) := MakeDir(fs, parent, h.value.name);
      if dir.None? || h.value.field.None? then (fs1, None)
      else ReadKids(fs1, buf, h.value.end, dir.value, h.value.field.value)
  }

  ghost function ReadFile(fs: Fs, buf: seq<Byte>, pos: nat, parent: Id, name: Str, size: nat): (r: (Fs, Option<nat>))
    requires Rooted(fs) && parent in fs.nodes && Utf8(name) && pos <= |buf|
    ensures Rooted(r.0) && (forall n | n in fs.nodes :: n in r.0.nodes)
    ensures r.1.Some? ==> pos <= r.1.value <= |buf|
  {
    CreateSafe(fs, parent, name, File);
    var (made, fs1) := Create(fs, parent, name, File);
    if made then FillFile(fs1, buf, pos, parent, name, size) else (fs1, None)
  }

  ghost function FillFile(fs: Fs, buf: seq<Byte>, pos: nat, parent: Id, name: Str, size: nat): (r: (Fs, Option<nat>))
    requires Rooted(fs) && parent in fs.nodes && Utf8(name) && pos <= |buf|
    ensures Rooted(r.0) && (forall n | n in fs.nodes :: n in r.0.nodes)
    ensures r.1.Some? ==> pos <= r.1.value <= |buf|
  {
    var data := Bytes(buf, pos, size);
    if size == 0 then (fs, Some(pos))
    else if data.None? then (fs, None)
    else
      WriteBytesSafe(fs, parent, name, data.value);
      var (written, fs1) := WriteBytes(fs, parent, name, data.value);
      (fs1, if written then Some(pos + size) else None)
  }

  lemma WriteFoundSafe(fs: Fs, base: Id, path: Str, data: seq<Byte>)
    requires Rooted(fs) && base in fs.nodes
    ensures Rooted(WriteFound(fs, base, path, data).1)
    ensures forall n | n in fs.nodes :: n in WriteFound(fs, base, path, data).1.nodes
  {
    var n := Resolve(fs, base, path);
    if n.Some? && fs.nodes[n.value].kind == File { SetDataSafe(fs, n.value, data); }
  }

  lemma WriteBytesSafe(fs: Fs, base: Id, path: Str, data: seq<Byte>)
    requires Rooted(fs) && base in fs.nodes && Utf8(path)
    ensures Rooted(WriteBytes(fs, base, path, data).1)
    ensures forall n | n in fs.nodes :: n in WriteBytes(fs, base, path, data).1.nodes
  {
    if Resolve(fs, base, path).Some? {
      WriteFoundSafe(fs, base, path, data);
    } else {
      CreateSafe(fs, base, path, File);
      WriteFoundSafe(Create(fs, base, path, File).1, base, path, data);
    }
  }

  ghost function MakeDir(fs: Fs, parent: Option<Id>, name: Str): (r: (Fs, Option<Id>))
    requires Rooted(fs) && (parent.Some? ==> parent.value in fs.nodes) && Utf8(name)
    ensures Rooted(r.0) && (forall n | n in fs.nodes :: n in r.0.nodes)
    ensures r.1.Some? ==> r.1.value in r.0.nodes
  {
    if parent.None? then (fs, Some(fs.root))
    else
      CreateSafe(fs, parent.value, name, Dir);
      var (made, fs1) := Create(fs, parent.value, name, Dir);
      (fs1, if made then Resolve(fs1, parent.value, name) else None)
  }

  ghost function ReadKids(fs: Fs, buf: seq<Byte>, pos: nat, dir: Id, n: nat): (r: (Fs, Option<nat>))
    requires Rooted(fs) && dir in fs.nodes && pos <= |buf|
    ensures Rooted(r.0) && (forall n | n in fs.nodes :: n in r.0.nodes)
    ensures r.1.Some? ==> pos <= r.1.value <= |buf|
    decreases Monus(|buf|, pos), n + 1
  {
    if n == 0 then (fs, Some(pos))
    else
      var (fs1, next) := ReadNode(fs, buf, pos, Some(dir));
      if next.None? then (fs1, None) else ReadKids(fs1, buf, next.value, dir, n - 1)
  }

  // The disk.

  function Sectors(size: nat): nat { (size + SECTOR_SIZE - 1) / SECTOR_SIZE }

  function Zeros(n: nat): (bs: seq<Byte>)
    ensures |bs| == n
  {
    seq(n, _ => 0)
  }

  function Superblock(size: nat): (bs: seq<Byte>)
    ensures |bs| == SECTOR_SIZE
  {
    Le(MAGIC, 4) + Le(VERSION, 4) + Le(size, 8) + Zeros(SECTOR_SIZE - 16)
  }

  /** None when the bytes do not fit; otherwise the disk with its first sectors overwritten. */
  function SaveBytes(disk: seq<Byte>, data: seq<Byte>): (r: Option<seq<Byte>>)
    ensures r.Some? ==> |r.value| == |disk|
  {
    var size := Sectors(|data|) * SECTOR_SIZE;
    if SECTOR_SIZE + size > |disk| then None
    else Some(Superblock(|data|) + data + Zeros(size - |data|) + disk[SECTOR_SIZE + size..])
  }

  function Save(disk: seq<Byte>, t: Tree): Option<seq<Byte>> { SaveBytes(disk, Serialize(t)) }

  /** False for a corrupt tree; a blank or foreign disk loads nothing. */
  ghost function Load(fs: Fs, disk: seq<Byte>): (r: (bool, Fs))
    requires Rooted(fs) && |disk| >= SECTOR_SIZE
  {
    var size := FromLe(disk[8..16]);
    if FromLe(disk[0..4]) != MAGIC || FromLe(disk[4..8]) != VERSION || size == 0 then (true, fs)
    else if SECTOR_SIZE + Sectors(size) * SECTOR_SIZE > |disk| then (false, fs)
    else
      var (fs1, end) := ReadNode(fs, disk[SECTOR_SIZE..SECTOR_SIZE + size], 0, None);
      (end.Some?, fs1)
  }
}
