/** How much of the disk a tree takes, so when it can be saved, and what loading makes of a disk that holds none. */
module FsSizes {
  import opened Wrappers
  import opened LittleEndian
  import opened FsModel
  import opened FsTree
  import opened FsImage

  /** Six bytes a node, and its name and contents. */
  function Bulk(t: Tree): (n: nat)
    decreases t, |t.kids| + 1
  {
    6 + |t.name| + if t.kind == File then |t.data| else BulkOfKids(t, 0)
  }

  function BulkOfKids(t: Tree, n: nat): nat
    requires n <= |t.kids|
    decreases t, |t.kids| - n
  {
    if n == |t.kids| then 0 else Bulk(t.kids[n]) + BulkOfKids(t, n + 1)
  }

  lemma {:induction false} BytesTaken(t: Tree)
    ensures |Serialize(t)| == Bulk(t)
    decreases t, |t.kids| + 1
  {
    if t.kind == Dir { KidsTaken(t, 0); }
  }

  lemma {:induction false} KidsTaken(t: Tree, n: nat)
    requires n <= |t.kids|
    ensures |SerializeKids(t, n)| == BulkOfKids(t, n)
    decreases t, |t.kids| - n
  {
    if n < |t.kids| {
      BytesTaken(t.kids[n]);
      KidsTaken(t, n + 1);
    }
  }

  lemma WholeSectors(size: nat, capacity: nat)
    requires capacity % SECTOR_SIZE == 0
    ensures Sectors(size) * SECTOR_SIZE <= capacity <==> size <= capacity
    ensures size <= Sectors(size) * SECTOR_SIZE < size + SECTOR_SIZE
  {
    var n := capacity / SECTOR_SIZE;
    assert capacity == n * SECTOR_SIZE;
  }

  /** A tree is saved if and only if the disk has room for one sector and its bytes. */
  lemma SavesIff(disk: seq<Byte>, t: Tree)
    requires |disk| % SECTOR_SIZE == 0
    ensures Save(disk, t).Some? <==> SECTOR_SIZE + Bulk(t) <= |disk|
  {
    BytesTaken(t);
    if |disk| >= SECTOR_SIZE { WholeSectors(Bulk(t), |disk| - SECTOR_SIZE); }
  }

  lemma Past<T>(a: seq<T>, b: seq<T>, i: nat)
    requires |a| <= i < |a| + |b|
    ensures (a + b)[i] == b[i - |a|]
  {
  }

  /** What a save writes: the superblock, the bytes, and zeros to the end of the sector. */
  function Written(data: seq<Byte>): (bs: seq<Byte>)
    ensures |bs| == SECTOR_SIZE + Sectors(|data|) * SECTOR_SIZE
  {
    WholeSectors(|data|, 0);
    Superblock(|data|) + data + Zeros(Sectors(|data|) * SECTOR_SIZE - |data|)
  }

  lemma SavedIs(disk: seq<Byte>, data: seq<Byte>)
    requires SaveBytes(disk, data).Some?
    ensures |Written(data)| <= |disk| && SaveBytes(disk, data).value == Written(data) + disk[|Written(data)|..]
  {
  }

  lemma SavedRest(disk: seq<Byte>, data: seq<Byte>, i: nat)
    requires SaveBytes(disk, data).Some? && SECTOR_SIZE + Sectors(|data|) * SECTOR_SIZE <= i < |disk|
    ensures SaveBytes(disk, data).value[i] == disk[i]
  {
    SavedIs(disk, data);
    Past(Written(data), disk[|Written(data)|..], i);
  }

  /** What lies past the sectors written is left alone. */
  lemma SaveKeepsRest(disk: seq<Byte>, t: Tree, i: nat)
    requires Save(disk, t).Some? && 2 * SECTOR_SIZE + Bulk(t) <= i < |disk|
    ensures Save(disk, t).value[i] == disk[i]
  {
    BytesTaken(t);
    WholeSectors(Bulk(t), 0);
    SavedRest(disk, Serialize(t), i);
  }

  /** A disk that was never saved to loads nothing, and says so by succeeding. */
  lemma BlankLoadsNothing(fs: Fs, disk: seq<Byte>)
    requires Rooted(fs) && |disk| >= SECTOR_SIZE && disk[..4] != Le(MAGIC, 4)
    ensures Load(fs, disk) == (true, fs)
  {
    assert disk[0..4] == disk[..4];
    if FromLe(disk[0..4]) == MAGIC { MagicBytes(disk[0..4]); }
  }

  /** A disk that claims more bytes than it has is refused, and nothing is loaded. */
  lemma TooLongIsRefused(fs: Fs, disk: seq<Byte>)
    requires Rooted(fs) && |disk| >= SECTOR_SIZE && |disk| % SECTOR_SIZE == 0
    requires FromLe(disk[0..4]) == MAGIC && FromLe(disk[4..8]) == VERSION
    requires SECTOR_SIZE + FromLe(disk[8..16]) > |disk|
    ensures Load(fs, disk) == (false, fs)
  {
    WholeSectors(FromLe(disk[8..16]), |disk| - SECTOR_SIZE);
  }

  lemma MagicBytes(bs: seq<Byte>)
    requires |bs| == 4 && FromLe(bs) == MAGIC
    ensures bs == Le(MAGIC, 4)
  {
    BytesOf(bs);
  }

  lemma {:induction false} BytesOf(bs: seq<Byte>)
    ensures Le(FromLe(bs), |bs|) == bs
  {
    if bs != [] {
      BytesOf(bs[1..]);
      assert FromLe(bs) % 256 == bs[0] && FromLe(bs) / 256 == FromLe(bs[1..]);
      assert bs == [bs[0]] + bs[1..];
    }
  }

  /** The format, on the smallest tree there is: an empty root. */
  lemma EmptyRootBytes()
    ensures Serialize(Tree([], Dir, [], [])) == [0, 0, 0, 0, 0, 0]
  {
    assert Le(0, 4) == [0, 0, 0, 0];
  }

  lemma FileBytes(t: Tree)
    requires t.kind == File && |t.name| < 64 && |t.data| < 256
    ensures Serialize(t) == [1, |t.name|] + t.name + ([|t.data|, 0, 0, 0] + t.data)
  {
    assert KindByte(t.kind) == 1 && |t.name| % 256 == |t.name| && |t.data| % U32 == |t.data|;
    FourBytes(|t.data|);
    assert Serialize(t) == [1, |t.name|] + t.name + (Le(|t.data|, 4) + t.data);
  }

  lemma DirBytes(t: Tree)
    requires t.kind == Dir && t.name == [] && |t.kids| == 1
    ensures Serialize(t) == [0, 0] + ([1, 0, 0, 0] + Serialize(t.kids[0]))
  {
    FourBytes(1);
    assert SerializeKids(t, 0) == Serialize(t.kids[0]) + SerializeKids(t, 1);
    assert SerializeKids(t, 1) == [] && Serialize(t.kids[0]) + [] == Serialize(t.kids[0]);
    assert [0, 0] + t.name == [0, 0];
  }

  /** ... and with one file in it. */
  lemma OneFileBytes(t: Tree, f: Tree)
    requires t.kind == Dir && t.name == [] && t.kids == [f] && f.kind == File && |f.name| < 64 && |f.data| < 256
    ensures Serialize(t) == [0, 0] + ([1, 0, 0, 0] + ([1, |f.name|] + f.name + ([|f.data|, 0, 0, 0] + f.data)))
  {
    FileBytes(f);
    DirBytes(t);
  }

  lemma FourBytes(n: nat)
    requires n < 256
    ensures Le(n, 4) == [n, 0, 0, 0]
  {
    assert Le(0, 3) == [0, 0, 0] by { assert Le(0, 2) == [0, 0] by { assert Le(0, 1) == [0]; } }
    assert n / 256 == 0;
  }
}
