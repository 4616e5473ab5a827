/** Names and paths, as the bytes of Rust strings: valid UTF-8, cut and split the way fs/vfs.rs does it. */
module Names {
  import opened Wrappers

  type Str = seq<Byte>

  const NAME_MAX := 64
  const SLASH: Byte := 0x2F
  const DOT: Str := [0x2E]
  const DOTDOT: Str := [0x2E, 0x2E]

  // UTF-8.

  predicate Continues(b: Byte) { 0x80 <= b < 0xC0 }

  /** The length a first byte announces, or 0 where none may stand. */
  function CharLen(b: Byte): (n: nat)
    ensures n <= 4
  {
    if b < 0x80 then 1
    else if b < 0xC2 then 0
    else if b < 0xE0 then 2
    else if b < 0xF0 then 3
    else if b < 0xF5 then 4
    else 0
  }

  /** The second byte's range: no overlong forms, no surrogates, nothing past U+10FFFF. */
  predicate SecondOk(first: Byte, second: Byte) {
    && (first == 0xE0 ==> second >= 0xA0)
    && (first == 0xED ==> second < 0xA0)
    && (first == 0xF0 ==> second >= 0x90)
    && (first == 0xF4 ==> second < 0x90)
  }

  predicate CharOk(s: Str, n: nat) {
    && 0 < n <= |s|
    && n == CharLen(s[0])
    && (forall i | 1 <= i < n :: Continues(s[i]))
    && (n > 1 ==> SecondOk(s[0], s[1]))
  }

  predicate Utf8(s: Str) {
    s == [] || (CharOk(s, CharLen(s[0])) && Utf8(s[CharLen(s[0])..]))
  }

  predicate Boundary(s: Str, at: nat)
    requires at <= |s|
  {
    at == |s| || at == 0 || !Continues(s[at])
  }

  /** floor_char_boundary. */
  function Floor(s: Str, at: nat): (r: nat)
    ensures r <= |s| && r <= at && Boundary(s, r)
    ensures |s| <= at ==> r == |s|
    ensures forall k | r < k <= at && k <= |s| :: !Boundary(s, k)
  {
    if at >= |s| then |s| else if at == 0 || !Continues(s[at]) then at else Floor(s, at - 1)
  }

  /** A name as it is stored and looked up: at most NAME_MAX - 1 bytes. */
  function Cut(s: Str): (r: Str)
    ensures |r| < NAME_MAX && r <= s
    ensures |s| < NAME_MAX ==> r == s
  {
    s[..Floor(s, NAME_MAX - 1)]
  }

  /** Cutting a string between characters leaves two strings. */
  lemma {:induction false} CutIsUtf8(s: Str, at: nat)
    requires Utf8(s) && at <= |s| && Boundary(s, at)
    ensures Utf8(s[..at]) && Utf8(s[at..])
  {
    if 0 < at < |s| {
      var n := CharLen(s[0]);
      assert CharOk(s, n);
      assert at >= n;
      assert s[n..][at - n..] == s[at..];
      assert Boundary(s[n..], at - n);
      CutIsUtf8(s[n..], at - n);
      var t := s[..at];
      assert t[n..] == s[n..][..at - n];
      assert CharOk(t, n);
    } else {
      assert s[..at] == [] || s[..at] == s;
      assert s[at..] == [] || s[at..] == s;
    }
  }

  // Paths.

  /** str::split('/'). */
  function Split(s: Str): (r: seq<Str>)
    ensures |r| > 0
    ensures forall c | c in r :: SLASH !in c
  {
    if s == [] then [[]]
    else
      var rest := Split(s[1..]);
      if s[0] == SLASH then [[]] + rest else [[s[0]] + rest[0]] + rest[1..]
  }

  function TrimEnd(s: Str): (r: Str)
    ensures r <= s && (r != [] ==> r[|r| - 1] != SLASH)
  {
    if s != [] && s[|s| - 1] == SLASH then TrimEnd(s[..|s| - 1]) else s
  }

  /** rfind('/'). */
  function LastSlash(s: Str): (r: Option<nat>)
    ensures r.Some? ==> r.value < |s| && s[r.value] == SLASH && SLASH !in s[r.value + 1..]
    ensures r.None? ==> SLASH !in s
  {
    if s == [] then None
    else if s[|s| - 1] == SLASH then Some(|s| - 1)
    else
      var r := LastSlash(s[..|s| - 1]);
      assert s == s[..|s| - 1] + [s[|s| - 1]];
      assert r.Some? ==> s[r.value + 1..] == s[..|s| - 1][r.value + 1..] + [s[|s| - 1]];
      r
  }

  /** "/a/b/c" from its components. */
  function Join(names: seq<Str>): Str {
    if names == [] then [] else [SLASH] + names[0] + Join(names[1..])
  }

  lemma {:induction false} SplitPrefix(name: Str, rest: Str)
    requires SLASH !in name && (rest == [] || rest[0] == SLASH)
    ensures Split(name + rest) == [name] + Split(rest)[1..]
  {
    if name == [] {
      assert name + rest == rest;
      assert Split(rest)[0] == [];
    } else {
      assert (name + rest)[1..] == name[1..] + rest;
      SplitPrefix(name[1..], rest);
      assert [name[0]] + name[1..] == name;
    }
  }

  lemma {:induction false} SplitJoin(names: seq<Str>)
    requires forall n | n in names :: SLASH !in n
    ensures Split(Join(names)) == [[]] + names
  {
    if names != [] {
      var rest := Join(names[1..]);
      SplitJoin(names[1..]);
      SplitPrefix(names[0], rest);
      assert Join(names)[1..] == names[0] + rest;
      assert [names[0]] + names[1..] == names;
    }
  }

  /** The components of a longer path are those of its parts. */
  lemma {:induction false} SplitAtSlash(p: Str, q: Str)
    ensures Split(p + [SLASH] + q) == Split(p) + Split(q)
  {
    var s := p + [SLASH] + q;
    if p == [] {
      assert s[1..] == q && s[0] == SLASH;
    } else {
      SplitAtSlash(p[1..], q);
      assert s[0] == p[0] && s[1..] == p[1..] + [SLASH] + q;
    }
  }

  function TrimStart(s: Str): (r: Str)
    ensures r == [] || r[0] != SLASH
  {
    if s != [] && s[0] == SLASH then TrimStart(s[1..]) else s
  }

  /** "a/b/c" from its components. */
  function Relative(names: seq<Str>): Str {
    if names == [] then [] else if |names| == 1 then names[0] else names[0] + [SLASH] + Relative(names[1..])
  }

  lemma SplitOne(name: Str)
    requires SLASH !in name
    ensures Split(name) == [name]
  {
    SplitPrefix(name, []);
    assert name + [] == name;
  }

  lemma {:induction false} SplitRelative(names: seq<Str>)
    requires names != [] && forall n | n in names :: SLASH !in n
    ensures Split(Relative(names)) == names
  {
    var first := names[0];
    SplitOne(first);
    assert names == [first] + names[1..];
    if |names| > 1 {
      SplitRelative(names[1..]);
      SplitAtSlash(first, Relative(names[1..]));
    }
  }
}
