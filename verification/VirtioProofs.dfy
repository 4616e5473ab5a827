/** Free descriptors and chains in flight always partition the table, whatever order the device completes in. */
module VirtioProofs {
  import opened VirtioModel

  /**
   * What the fields stand for: the free list; the chains the device has not taken off the avail ring yet, those
   * it is working on, and those it has finished but the driver has not reaped; and how many chains were ever
   * taken and reaped.
   */
  datatype Plan = Plan(free: seq<nat>, unread: seq<seq<nat>>, busy: seq<seq<nat>>, done: seq<seq<nat>>, taken: nat,
      reaped: nat)

  ghost function Held(chains: seq<seq<nat>>): multiset<nat> {
    if chains == [] then multiset{} else Held(chains[..|chains| - 1]) + multiset(chains[|chains| - 1])
  }

  ghost function Everything(p: Plan): multiset<nat> { multiset(p.free) + Held(p.unread) + Held(p.busy) + Held(p.done) }

  /** Every descriptor is in exactly one place, and there are no others. */
  ghost predicate Partition(p: Plan, size: nat) {
    forall x: nat :: Everything(p)[x] == if x < size then 1 else 0
  }

  /** The free list, as the next fields spell it out. */
  ghost predicate Threaded(next: seq<nat>, head: nat, free: seq<nat>) {
    && (free != [] ==> free[0] == head)
    && forall i: nat | i + 1 < |free| :: ThreadAt(next, free, i)
  }

  ghost predicate ThreadAt(next: seq<nat>, free: seq<nat>, i: nat)
    requires i + 1 < |free|
  {
    At(next, free[i]) == free[i + 1]
  }

  /** A chain, as the next fields and flags spell it out. */
  ghost predicate ChainOk(q: Queue, c: seq<nat>) {
    && 0 < |c| <= 8
    && forall i | 0 <= i < |c| :: LinkOk(q, c, i)
  }

  ghost predicate LinkOk(q: Queue, c: seq<nat>, i: nat)
    requires i < |c|
  {
    c[i] < |q.more| && (q.more[c[i]] <==> i + 1 < |c|) && (i + 1 < |c| ==> At(q.next, c[i]) == c[i + 1])
  }

  ghost predicate ChainsOk(q: Queue, chains: seq<seq<nat>>) {
    forall i | 0 <= i < |chains| :: ChainOk(q, chains[i])
  }

  /** Where the `s`th entry ever written goes in a ring, through a 16-bit index. */
  function Slot(s: nat, size: nat): (r: nat)
    requires size > 0
    ensures r < size
  {
    s % U16 % size
  }

  /** A ring names the heads of these chains, from entry number `from` on. */
  ghost predicate Names(ring: seq<nat>, from: nat, chains: seq<seq<nat>>)
    requires |ring| > 0
  {
    forall i: nat | i < |chains| :: NamesAt(ring, from, chains, i)
  }

  ghost predicate NamesAt(ring: seq<nat>, from: nat, chains: seq<seq<nat>>, i: nat)
    requires |ring| > 0 && i < |chains|
  {
    chains[i] != [] && ring[Slot(from + i, |ring|)] == chains[i][0]
  }

  ghost predicate Lists(q: Queue, p: Plan) {
    && q.numFree == |p.free| && Threaded(q.next, q.freeHead, p.free)
    && ChainsOk(q, p.unread) && ChainsOk(q, p.busy) && ChainsOk(q, p.done)
    && Partition(p, Size(q))
  }

  ghost predicate Rings(q: Queue, p: Plan)
    requires Shaped(q)
  {
    && q.availIdx == (p.taken + |p.unread|) % U16 && Names(q.ring, p.taken, p.unread)
    && q.lastUsed == p.reaped % U16 && q.usedIdx == (p.reaped + |p.done|) % U16 && Names(q.used, p.reaped, p.done)
  }

  ghost predicate Rep(q: Queue, p: Plan) { Shaped(q) && Lists(q, p) && Rings(q, p) }

  /** One more entry lands on none of these: the ring's slots are in step with the 16-bit index, or there are none. */
  ghost predicate Room(size: nat, chains: seq<seq<nat>>) { size > 0 && (U16 % size == 0 || chains == []) }

  // Slots.

  lemma ModOfMod(s: nat, size: nat)
    requires size > 0 && U16 % size == 0
    ensures s % U16 % size == s % size
  {
    var m, a, r := U16 / size, s / U16, s % U16;
    var b, c := r / size, r % size;
    assert U16 == size * m;
    assert s == U16 * a + r;
    assert r == size * b + c;
    assert U16 * a == size * (m * a) by { Regroup(size, m, a); }
    assert s == size * (m * a + b) + c;
    ModIs(s, size, m * a + b, c);
  }

  lemma Regroup(x: int, y: int, z: int)
    ensures (x * y) * z == x * (y * z)
  {
  }

  lemma ModIs(s: int, size: int, k: int, c: int)
    requires size > 0 && s == size * k + c && 0 <= c < size
    ensures s % size == c
  {
    var d := s / size;
    assert s == size * d + s % size;
    assert size * (k - d) == s % size - c;
    if k - d >= 1 { Grows(size, k - d); } else if k - d <= -1 { Grows(size, d - k); }
  }

  lemma Grows(size: int, k: int)
    requires size > 0 && k >= 1
    ensures size * k >= size && size * -k <= -size
  {
    assert size * (k - 1) >= 0;
  }

  lemma NearApart(s: nat, t: nat, size: nat)
    requires size > 0 && s < t < s + size
    ensures s % size != t % size
  {
    if s % size == t % size {
      var a, b := s / size, t / size;
      assert s == size * a + s % size && t == size * b + t % size;
      assert size * (b - a) == t - s;
      if b - a >= 1 { Grows(size, b - a); } else if b - a <= -1 { Grows(size, a - b); }
    }
  }

  lemma SlotsApart(s: nat, t: nat, size: nat)
    requires size > 0 && U16 % size == 0 && s < t < s + size
    ensures Slot(s, size) != Slot(t, size)
  {
    ModOfMod(s, size);
    ModOfMod(t, size);
    NearApart(s, t, size);
  }

  /** The size for which any `size` entries in a row have slots of their own: exactly those that divide 65536. */
  lemma RingNeverOverlapsIff(size: nat)
    requires 0 < size <= QUEUE_MAX
    ensures (forall s: nat, t: nat | s < t < s + size :: Slot(s, size) != Slot(t, size)) <==> U16 % size == 0
  {
    if U16 % size == 0 {
      forall s: nat, t: nat | s < t < s + size ensures Slot(s, size) != Slot(t, size) { SlotsApart(s, t, size); }
    } else {
      var s, t := Overlap(size);
      assert s < t < s + size;
    }
  }

  lemma Overlap(size: nat) returns (s: nat, t: nat)
    requires 0 < size <= QUEUE_MAX && U16 % size != 0
    ensures s < t < s + size && Slot(s, size) == Slot(t, size)
  {
    t := U16;
    s := U16 - U16 % size;
    OverlapAt(U16, size);
  }

  lemma OverlapAt(u: nat, size: nat)
    requires 0 < size < u && u % size != 0
    ensures 0 <= u - u % size < u < u - u % size + size && (u - u % size) % u % size == u % u % size
  {
    RoundedDown(u, size);
    Small(u - u % size, u);
    ModIs(u, u, 1, 0);
    Small(0, size);
  }

  lemma RoundedDown(u: nat, size: nat)
    requires size > 0
    ensures (u - u % size) % size == 0 && u % size < size
  {
    assert u == size * (u / size) + u % size;
    ModIs(u - u % size, size, u / size, 0);
  }

  lemma Small(s: nat, u: nat)
    requires s < u
    ensures s % u == s
  {
    ModIs(s, u, 0, s);
  }

  // Counting.

  lemma {:induction false} HeldSize(chains: seq<seq<nat>>)
    requires forall i | 0 <= i < |chains| :: |chains[i]| > 0
    ensures |Held(chains)| >= |chains|
  {
    if chains != [] { HeldSize(chains[..|chains| - 1]); }
  }

  lemma {:induction false} BagSize(m: multiset<nat>, size: nat)
    requires forall x: nat :: m[x] == if x < size then 1 else 0
    ensures |m| == size
  {
    if size == 0 {
      assert m == multiset{};
    } else {
      var n: nat := size - 1;
      var less := m - multiset{n};
      assert m[n] == 1;
      BagSize(less, n);
      assert m == less + multiset{n};
    }
  }

  /** There are never more chains in flight than descriptors in use. */
  lemma FlightFits(q: Queue, p: Plan)
    requires Lists(q, p)
    ensures |p.unread| + |p.busy| + |p.done| + |p.free| <= Size(q)
  {
    HeldSize(p.unread);
    HeldSize(p.busy);
    HeldSize(p.done);
    BagSize(Everything(p), Size(q));
  }

  lemma HeldMore(chains: seq<seq<nat>>, c: seq<nat>)
    ensures Held(chains + [c]) == Held(chains) + multiset(c)
  {
    assert (chains + [c])[..|chains|] == chains;
  }

  ghost function Without(chains: seq<seq<nat>>, k: nat): seq<seq<nat>>
    requires k < |chains|
  {
    chains[..k] + chains[k + 1..]
  }

  lemma {:induction false} HeldWithout(chains: seq<seq<nat>>, k: nat)
    requires k < |chains|
    ensures Held(chains) == Held(Without(chains, k)) + multiset(chains[k])
  {
    var n := |chains| - 1;
    if k == n {
      assert Without(chains, k) == chains[..n];
    } else {
      HeldWithout(chains[..n], k);
      assert Without(chains, k) == Without(chains[..n], k) + [chains[n]];
      HeldMore(Without(chains[..n], k), chains[n]);
    }
  }

  lemma HasPart(chains: seq<seq<nat>>, k: nat, x: nat)
    requires k < |chains| && x in chains[k]
    ensures Held(chains)[x] >= 1
  {
    HeldWithout(chains, k);
    assert x in multiset(chains[k]);
  }

  // No descriptor is in two places.

  lemma TwiceCounts(s: seq<nat>, i: nat, j: nat)
    requires i < j < |s| && s[i] == s[j]
    ensures multiset(s)[s[i]] >= 2
  {
    assert s == s[..j] + s[j..] && s[i] in s[..j] && s[j] in s[j..];
    assert multiset(s) == multiset(s[..j]) + multiset(s[j..]);
  }

  lemma FreeIsDistinct(p: Plan, size: nat)
    requires Partition(p, size)
    ensures forall i | 0 <= i < |p.free| :: p.free[i] < size
    ensures Distinct(p.free)
  {
    forall i | 0 <= i < |p.free| ensures p.free[i] < size {
      assert p.free[i] in multiset(p.free) && Everything(p)[p.free[i]] >= 1;
    }
    forall i: nat, j: nat | i < j < |p.free| ensures Differ(p.free, i, j) {
      assert Everything(p)[p.free[i]] <= 1;
      if p.free[i] == p.free[j] { TwiceCounts(p.free, i, j); }
    }
  }

  ghost predicate Distinct(s: seq<nat>) { forall i: nat, j: nat | i < j < |s| :: Differ(s, i, j) }

  ghost predicate Differ(s: seq<nat>, i: nat, j: nat)
    requires i < j < |s|
  {
    s[i] != s[j]
  }

  ghost predicate Disjoint(a: seq<nat>, b: seq<nat>) { forall i | 0 <= i < |b| :: b[i] !in a }

  ghost predicate DisjointFrom(a: seq<nat>, chains: seq<seq<nat>>) {
    forall k | 0 <= k < |chains| :: Disjoint(a, chains[k])
  }

  lemma BothCount(a: seq<nat>, chains: seq<seq<nat>>)
    requires forall x: nat :: multiset(a)[x] + Held(chains)[x] <= 1
    ensures DisjointFrom(a, chains)
  {
    forall k | 0 <= k < |chains| ensures Disjoint(a, chains[k]) {
      forall j | 0 <= j < |chains[k]| ensures chains[k][j] !in a {
        HasPart(chains, k, chains[k][j]);
        assert multiset(a)[chains[k][j]] == 0;
      }
    }
  }

  ghost predicate ApartFromAll(a: seq<nat>, p: Plan) {
    DisjointFrom(a, p.unread) && DisjointFrom(a, p.busy) && DisjointFrom(a, p.done)
  }

  lemma IsApart(a: seq<nat>, p: Plan)
    requires forall x: nat :: multiset(a)[x] + Held(p.unread)[x] + Held(p.busy)[x] + Held(p.done)[x] <= 1
    ensures ApartFromAll(a, p)
  {
    forall x: nat | true ensures multiset(a)[x] + Held(p.unread)[x] <= 1 {
      assert multiset(a)[x] + Held(p.unread)[x] + Held(p.busy)[x] + Held(p.done)[x] <= 1;
    }
    BothCount(a, p.unread);
    BothCount(a, p.busy);
    BothCount(a, p.done);
  }

  lemma FreeIsApart(p: Plan, size: nat)
    requires Partition(p, size)
    ensures ApartFromAll(p.free, p)
  {
    forall x: nat | true
      ensures multiset(p.free)[x] + Held(p.unread)[x] + Held(p.busy)[x] + Held(p.done)[x] <= 1
    {
      assert Everything(p)[x] <= 1;
    }
    IsApart(p.free, p);
  }

  // Taking descriptors off the free list and chaining them.

  lemma ThreadedOn(next: seq<nat>, head: nat, free: seq<nat>, n: nat)
    requires n < |free| && Threaded(next, head, free)
    ensures Threaded(next, free[n], free[n..])
  {
    var rest := free[n..];
    forall i: nat | i + 1 < |rest| ensures ThreadAt(next, rest, i) { assert ThreadAt(next, free, n + i); }
  }

  lemma {:induction false} IndicesAre(next: seq<nat>, head: nat, free: seq<nat>, k: nat)
    requires k <= |free| && Threaded(next, head, free)
    ensures Indices(next, head, k) == free[..k]
    ensures k < |free| ==> Follow(next, head, k) == free[k]
    decreases k
  {
    if k > 0 {
      if |free| > 1 {
        assert ThreadAt(next, free, 0);
        ThreadedOn(next, head, free, 1);
        IndicesAre(next, free[1], free[1..], k - 1);
        assert free[..k] == [free[0]] + free[1..][..k - 1];
      } else {
        assert free[..k] == [free[0]];
        assert Indices(next, At(next, head), 0) == [];
      }
    }
  }

  /** Filling in a chain touches its own descriptors only. */
  lemma {:induction false} ChainedElsewhere(q: Queue, ids: seq<nat>, bufs: seq<nat>, k: nat, x: nat)
    requires k <= |ids| == |bufs| && Shaped(q) && x < Size(q) && x !in ids[..k]
    ensures var c := Chained(q, ids, bufs, k); c.next[x] == q.next[x] && c.more[x] == q.more[x] && c.buf[x] == q.buf[x]
  {
    if k > 0 {
      assert ids[..k - 1] == ids[..k][..k - 1] && ids[k - 1] == ids[..k][k - 1];
      ChainedElsewhere(q, ids, bufs, k - 1, x);
    }
  }

  lemma {:induction false} ChainedAt(q: Queue, ids: seq<nat>, bufs: seq<nat>, k: nat, i: nat)
    requires i < k <= |ids| == |bufs| && Shaped(q) && Distinct(ids) && ids[i] < Size(q)
    ensures var c := Chained(q, ids, bufs, k);
            c.next[ids[i]] == (if i + 1 < |ids| then ids[i + 1] else 0) && (c.more[ids[i]] <==> i + 1 < |ids|)
                && c.buf[ids[i]] == bufs[i]
  {
    if i < k - 1 {
      ChainedAt(q, ids, bufs, k - 1, i);
      assert Differ(ids, i, k - 1);
    }
  }

  lemma ChainedIsOk(q: Queue, ids: seq<nat>, bufs: seq<nat>)
    requires 0 < |ids| == |bufs| <= 8 && Shaped(q) && Distinct(ids) && forall i | 0 <= i < |ids| :: ids[i] < Size(q)
    ensures ChainOk(Chained(q, ids, bufs, |ids|), ids)
  {
    forall i | 0 <= i < |ids|
      ensures LinkOk(Chained(q, ids, bufs, |ids|), ids, i)
    {
      ChainedAt(q, ids, bufs, |ids|, i);
    }
  }

  /** Two tables agree on these descriptors. */
  ghost predicate Same(q: Queue, r: Queue, ids: seq<nat>) {
    forall i | 0 <= i < |ids| :: SameAt(q, r, ids[i])
  }

  ghost predicate SameAt(q: Queue, r: Queue, x: nat) {
    && At(r.next, x) == At(q.next, x) && (x < |r.more| <==> x < |q.more|) && (x < |r.more| ==> r.more[x] == q.more[x])
  }

  ghost predicate SameAll(q: Queue, r: Queue, chains: seq<seq<nat>>) {
    forall k | 0 <= k < |chains| :: Same(q, r, chains[k])
  }

  lemma SameChains(q: Queue, r: Queue, chains: seq<seq<nat>>)
    requires ChainsOk(q, chains) && SameAll(q, r, chains)
    ensures ChainsOk(r, chains)
  {
    forall k | 0 <= k < |chains| ensures ChainOk(r, chains[k]) {
      assert ChainOk(q, chains[k]) && Same(q, r, chains[k]);
      forall i | 0 <= i < |chains[k]| ensures LinkOk(r, chains[k], i) {
        assert LinkOk(q, chains[k], i) && SameAt(q, r, chains[k][i]);
      }
    }
  }

  lemma SameFree(q: Queue, r: Queue, head: nat, free: seq<nat>)
    requires Threaded(q.next, head, free) && Same(q, r, free)
    ensures Threaded(r.next, head, free)
  {
    forall i: nat | i + 1 < |free| ensures ThreadAt(r.next, free, i) {
      assert ThreadAt(q.next, free, i) && SameAt(q, r, free[i]);
    }
  }

  /** Filling in a chain leaves alone every descriptor outside it. */
  lemma ChainedSame(q: Queue, ids: seq<nat>, bufs: seq<nat>, c: seq<nat>)
    requires |ids| == |bufs| && Shaped(q) && Disjoint(ids, c)
    ensures Same(q, Chained(q, ids, bufs, |ids|), c)
  {
    forall i | 0 <= i < |c| ensures SameAt(q, Chained(q, ids, bufs, |ids|), c[i]) {
      assert ids[..|ids|] == ids;
      if c[i] < Size(q) { ChainedElsewhere(q, ids, bufs, |ids|, c[i]); }
    }
  }

  lemma ChainedSameAll(q: Queue, ids: seq<nat>, bufs: seq<nat>, chains: seq<seq<nat>>)
    requires |ids| == |bufs| && Shaped(q) && DisjointFrom(ids, chains)
    ensures SameAll(q, Chained(q, ids, bufs, |ids|), chains)
  {
    forall k | 0 <= k < |chains|
      ensures Same(q, Chained(q, ids, bufs, |ids|), chains[k])
    {
      ChainedSame(q, ids, bufs, chains[k]);
    }
  }

  lemma FewerDisjoint(a: seq<nat>, n: nat, chains: seq<seq<nat>>)
    requires n <= |a| && DisjointFrom(a, chains)
    ensures DisjointFrom(a[..n], chains)
  {
    forall k | 0 <= k < |chains| ensures Disjoint(a[..n], chains[k]) { assert Disjoint(a, chains[k]); }
  }

  // The plan's side of each step.

  ghost function Submitted(p: Plan, n: nat): Plan
    requires n <= |p.free|
  {
    p.(free := p.free[n..], unread := p.unread + [p.free[..n]])
  }

  ghost function Taken(p: Plan): Plan
    requires p.unread != []
  {
    p.(unread := p.unread[1..], busy := p.busy + [p.unread[0]], taken := p.taken + 1)
  }

  ghost function Finished(p: Plan, k: nat): Plan
    requires k < |p.busy|
  {
    p.(busy := Without(p.busy, k), done := p.done + [p.busy[k]])
  }

  ghost function Back(c: seq<nat>, k: nat): seq<nat>
    requires k <= |c|
  {
    if k == 0 then [] else [c[k - 1]] + Back(c, k - 1)
  }

  ghost function Reaped(p: Plan): Plan
    requires p.done != []
  {
    p.(free := Back(p.done[0], |p.done[0]|) + p.free, done := p.done[1..], reaped := p.reaped + 1)
  }

  lemma {:induction false} BackIs(c: seq<nat>, k: nat)
    requires k <= |c|
    ensures multiset(Back(c, k)) == multiset(c[..k]) && |Back(c, k)| == k
  {
    if k > 0 {
      BackIs(c, k - 1);
      assert c[..k] == c[..k - 1] + [c[k - 1]];
    }
  }

  lemma HeldFirst(chains: seq<seq<nat>>)
    requires chains != []
    ensures Held(chains) == Held(chains[1..]) + multiset(chains[0])
  {
    HeldWithout(chains, 0);
    assert Without(chains, 0) == chains[1..];
  }

  lemma SubmitConserves(p: Plan, n: nat)
    requires n <= |p.free|
    ensures Everything(Submitted(p, n)) == Everything(p)
  {
    assert p.free == p.free[..n] + p.free[n..];
    HeldMore(p.unread, p.free[..n]);
  }

  lemma TakeConserves(p: Plan)
    requires p.unread != []
    ensures Everything(Taken(p)) == Everything(p)
  {
    HeldFirst(p.unread);
    HeldMore(p.busy, p.unread[0]);
  }

  lemma FinishConserves(p: Plan, k: nat)
    requires k < |p.busy|
    ensures Everything(Finished(p, k)) == Everything(p)
  {
    HeldWithout(p.busy, k);
    HeldMore(p.done, p.busy[k]);
  }

  lemma ReapConserves(p: Plan)
    requires p.done != []
    ensures Everything(Reaped(p)) == Everything(p)
  {
    var c := p.done[0];
    HeldFirst(p.done);
    BackIs(c, |c|);
    assert c[..|c|] == c;
  }

  // Rings.

  /** The entry a full set of counters points at is free to be written. */
  lemma NamesMore(ring: seq<nat>, from: nat, chains: seq<seq<nat>>, c: seq<nat>)
    requires Room(|ring|, chains) && |chains| < |ring| && c != [] && Names(ring, from, chains)
    ensures Names(Put(ring, Slot(from + |chains|, |ring|), c[0]), from, chains + [c])
  {
    var ring' := Put(ring, Slot(from + |chains|, |ring|), c[0]);
    forall i: nat | i < |chains + [c]| ensures NamesAt(ring', from, chains + [c], i) {
      if i < |chains| {
        assert NamesAt(ring, from, chains, i);
        SlotsApart(from + i, from + |chains|, |ring|);
      }
    }
  }

  lemma NamesFewer(ring: seq<nat>, from: nat, chains: seq<seq<nat>>)
    requires 0 < |ring| && chains != [] && Names(ring, from, chains)
    ensures Names(ring, from + 1, chains[1..]) && chains[0] != [] && ring[Slot(from, |ring|)] == chains[0][0]
  {
    var rest, next := chains[1..], from + 1;
    forall i: nat | i < |rest| ensures NamesAt(ring, next, rest, i) {
      assert NamesAt(ring, from, chains, i + 1) && next + i == from + (i + 1);
    }
    assert NamesAt(ring, from, chains, 0);
  }

  lemma Wrapped(s: nat)
    ensures (s % U16 + 1) % U16 == (s + 1) % U16
  {
  }

  // Submitting.

  lemma FrontIsApart(free: seq<nat>, n: nat)
    requires n <= |free| && Distinct(free)
    ensures Disjoint(free[..n], free[n..]) && Distinct(free[..n])
  {
    var a, b := free[..n], free[n..];
    forall i: nat, j: nat | i < j < |a| ensures Differ(a, i, j) { assert Differ(free, i, j); }
    forall j | 0 <= j < |b| ensures b[j] !in a {
      forall i: nat | i < |a| ensures a[i] != b[j] { assert Differ(free, i, n + j); }
    }
  }

  lemma RestIsThreaded(next: seq<nat>, head: nat, free: seq<nat>, n: nat)
    requires n <= |free| && Threaded(next, head, free)
    ensures Threaded(next, Follow(next, head, n), free[n..])
  {
    IndicesAre(next, head, free, n);
    if n < |free| { ThreadedOn(next, head, free, n); }
  }

  lemma StaysThreaded(u: Queue, ids: seq<nat>, rest: seq<nat>, bufs: seq<nat>)
    requires Shaped(u) && |ids| == |bufs| && Disjoint(ids, rest) && Threaded(u.next, u.freeHead, rest)
    ensures Threaded(Chained(u, ids, bufs, |ids|).next, u.freeHead, rest)
  {
    ChainedSame(u, ids, bufs, rest);
    SameFree(u, Chained(u, ids, bufs, |ids|), u.freeHead, rest);
  }

  lemma SubmitList(q: Queue, free: seq<nat>, bufs: seq<nat>)
    requires Shaped(q) && q.numFree == |free| && Threaded(q.next, q.freeHead, free) && |bufs| <= |free|
             && Distinct(free)
    ensures var c := Chained(Unlisted(q, |bufs|), free[..|bufs|], bufs, |bufs|);
            Threaded(c.next, c.freeHead, free[|bufs|..])
  {
    FrontIsApart(free, |bufs|);
    RestIsThreaded(q.next, q.freeHead, free, |bufs|);
    StaysThreaded(Unlisted(q, |bufs|), free[..|bufs|], free[|bufs|..], bufs);
  }

  ghost predicate InRange(s: seq<nat>, size: nat) { forall i | 0 <= i < |s| :: s[i] < size }

  lemma SubmitNew(q: Queue, free: seq<nat>, bufs: seq<nat>)
    requires Shaped(q) && q.numFree == |free| && 0 < |bufs| <= 8 && |bufs| <= |free| && Distinct(free)
             && InRange(free, Size(q))
    ensures ChainOk(Chained(Unlisted(q, |bufs|), free[..|bufs|], bufs, |bufs|), free[..|bufs|])
  {
    FrontIsApart(free, |bufs|);
    ChainedIsOk(Unlisted(q, |bufs|), free[..|bufs|], bufs);
  }

  lemma SubmitChains(q: Queue, p: Plan, bufs: seq<nat>)
    requires Shaped(q) && Lists(q, p) && Accepts(q, |bufs|)
    ensures var ids := p.free[..|bufs|]; var c := Chained(Unlisted(q, |bufs|), ids, bufs, |bufs|);
            ChainsOk(c, p.unread + [ids]) && ChainsOk(c, p.busy) && ChainsOk(c, p.done)
  {
    assert ApartFromAll(p.free, p) by { FreeIsApart(p, Size(q)); }
    assert Distinct(p.free) && InRange(p.free, Size(q)) by { FreeIsDistinct(p, Size(q)); }
    SubmitNew(q, p.free, bufs);
    SubmitKeepsChains(q, p, bufs, p.unread);
    SubmitKeepsChains(q, p, bufs, p.busy);
    SubmitKeepsChains(q, p, bufs, p.done);
    ChainsMore(Chained(Unlisted(q, |bufs|), p.free[..|bufs|], bufs, |bufs|), p.unread, p.free[..|bufs|]);
  }

  lemma SubmitLists(q: Queue, p: Plan, bufs: seq<nat>)
    requires Shaped(q) && Lists(q, p) && Accepts(q, |bufs|)
    ensures var ids := p.free[..|bufs|]; var c := Chained(Unlisted(q, |bufs|), ids, bufs, |bufs|);
            Indices(q.next, q.freeHead, |bufs|) == ids && Lists(c, Submitted(p, |bufs|))
  {
    IndicesAre(q.next, q.freeHead, p.free, |bufs|);
    assert Distinct(p.free) by { FreeIsDistinct(p, Size(q)); }
    SubmitList(q, p.free, bufs);
    SubmitChains(q, p, bufs);
    SubmitConserves(p, |bufs|);
  }

  lemma SubmitKeepsChains(q: Queue, p: Plan, bufs: seq<nat>, chains: seq<seq<nat>>)
    requires Shaped(q) && q.numFree == |p.free| && |bufs| <= |p.free| && ChainsOk(q, chains)
             && DisjointFrom(p.free, chains)
    ensures ChainsOk(Chained(Unlisted(q, |bufs|), p.free[..|bufs|], bufs, |bufs|), chains)
  {
    var u := Unlisted(q, |bufs|);
    FewerDisjoint(p.free, |bufs|, chains);
    ChainedSameAll(u, p.free[..|bufs|], bufs, chains);
    forall k | 0 <= k < |chains| ensures ChainOk(u, chains[k]) { SameShape(q, u, chains[k]); }
    SameChains(u, Chained(u, p.free[..|bufs|], bufs, |bufs|), chains);
  }

  /** What a chain is depends on the next fields and the flags alone. */
  lemma SameShape(q: Queue, r: Queue, c: seq<nat>)
    requires ChainOk(q, c) && r.next == q.next && r.more == q.more
    ensures ChainOk(r, c)
  {
    forall i | 0 <= i < |c| ensures LinkOk(r, c, i) { assert LinkOk(q, c, i); }
  }

  lemma SameLists(q: Queue, r: Queue, p: Plan)
    requires Lists(q, p) && r.next == q.next && r.more == q.more && r.freeHead == q.freeHead && r.numFree == q.numFree
    ensures Lists(r, p)
  {
    forall k | 0 <= k < |p.unread| ensures ChainOk(r, p.unread[k]) { SameShape(q, r, p.unread[k]); }
    forall k | 0 <= k < |p.busy| ensures ChainOk(r, p.busy[k]) { SameShape(q, r, p.busy[k]); }
    forall k | 0 <= k < |p.done| ensures ChainOk(r, p.done[k]) { SameShape(q, r, p.done[k]); }
  }

  /** A submission takes its descriptors off the front of the free list and reaches the device untorn. */
  lemma SubmitSafe(q: Queue, p: Plan, bufs: seq<nat>)
    requires Rep(q, p) && Accepts(q, |bufs|) && Room(Size(q), p.unread)
    ensures Rep(Submit(q, bufs), Submitted(p, |bufs|))
    ensures forall i | 0 <= i < |bufs| :: At(Submit(q, bufs).buf, p.free[i]) == bufs[i]
    ensures forall x: nat | x < Size(q) && x !in p.free[..|bufs|] :: At(Submit(q, bufs).buf, x) == At(q.buf, x)
  {
    var n := |bufs|;
    var ids, u, p' := p.free[..n], Unlisted(q, n), Submitted(p, n);
    var c := Chained(u, ids, bufs, n);
    SubmitLists(q, p, bufs);
    assert Submit(q, bufs) == Publish(c, ids[0]);
    SameLists(c, Publish(c, ids[0]), p');
    SubmitRings(q, p, c, ids);
    SubmitBufs(q, p, bufs);
  }

  lemma SubmitRings(q: Queue, p: Plan, c: Queue, ids: seq<nat>)
    requires Rep(q, p) && Room(Size(q), p.unread) && Shaped(c) && 0 < |ids| <= |p.free|
    requires c == q.(next := c.next, more := c.more, buf := c.buf, freeHead := c.freeHead, numFree := c.numFree)
    ensures Rings(Publish(c, ids[0]), p.(free := p.free[|ids|..], unread := p.unread + [ids]))
  {
    FlightFits(q, p);
    NamesMore(q.ring, p.taken, p.unread, ids);
    Wrapped(p.taken + |p.unread|);
  }

  lemma SubmitBufs(q: Queue, p: Plan, bufs: seq<nat>)
    requires Shaped(q) && Lists(q, p) && Accepts(q, |bufs|)
    ensures var c := Chained(Unlisted(q, |bufs|), p.free[..|bufs|], bufs, |bufs|);
            && (forall i | 0 <= i < |bufs| :: At(c.buf, p.free[i]) == bufs[i])
            && (forall x: nat | x < Size(q) && x !in p.free[..|bufs|] :: At(c.buf, x) == At(q.buf, x))
  {
    assert Distinct(p.free) && InRange(p.free, Size(q)) by { FreeIsDistinct(p, Size(q)); }
    FrontIsApart(p.free, |bufs|);
    ChainedBufs(Unlisted(q, |bufs|), p.free[..|bufs|], bufs);
    forall i | 0 <= i < |bufs|
      ensures At(Chained(Unlisted(q, |bufs|), p.free[..|bufs|], bufs, |bufs|).buf, p.free[i]) == bufs[i]
    {
      assert p.free[..|bufs|][i] == p.free[i];
    }
  }

  lemma ChainedBufs(u: Queue, ids: seq<nat>, bufs: seq<nat>)
    requires Shaped(u) && |ids| == |bufs| && Distinct(ids) && InRange(ids, Size(u))
    ensures forall i | 0 <= i < |ids| :: At(Chained(u, ids, bufs, |bufs|).buf, ids[i]) == bufs[i]
    ensures forall x: nat | x < Size(u) && x !in ids :: At(Chained(u, ids, bufs, |bufs|).buf, x) == At(u.buf, x)
  {
    forall i | 0 <= i < |ids|
      ensures At(Chained(u, ids, bufs, |bufs|).buf, ids[i]) == bufs[i]
    {
      ChainedAt(u, ids, bufs, |bufs|, i);
    }
    forall x: nat | x < Size(u) && x !in ids ensures At(Chained(u, ids, bufs, |bufs|).buf, x) == At(u.buf, x) {
      assert ids[..|ids|] == ids;
      ChainedElsewhere(u, ids, bufs, |bufs|, x);
    }
  }

  // The device's steps.

  lemma TakeLists(q: Queue, p: Plan)
    requires Lists(q, p) && p.unread != []
    ensures Lists(q, Taken(p))
  {
    TakeConserves(p);
    ChainsFewer(q, p.unread);
    ChainsMore(q, p.busy, p.unread[0]);
  }

  lemma ChainsFewer(q: Queue, chains: seq<seq<nat>>)
    requires ChainsOk(q, chains) && chains != []
    ensures ChainsOk(q, chains[1..]) && ChainOk(q, chains[0])
  {
  }

  /** What the device reads off the avail ring is the oldest submission it has not read yet. */
  lemma TakeSafe(q: Queue, p: Plan)
    requires Rep(q, p) && p.unread != []
    ensures Rep(q, Taken(p))
    ensures q.ring[Slot(p.taken, Size(q))] == p.unread[0][0]
  {
    NamesFewer(q.ring, p.taken, p.unread);
    TakeLists(q, p);
  }

  lemma FinishLists(q: Queue, p: Plan, k: nat)
    requires Lists(q, p) && k < |p.busy|
    ensures Lists(q, Finished(p, k))
  {
    FinishConserves(p, k);
    ChainsWithout(q, p.busy, k);
    ChainsMore(q, p.done, p.busy[k]);
  }

  lemma ChainsWithout(q: Queue, chains: seq<seq<nat>>, k: nat)
    requires ChainsOk(q, chains) && k < |chains|
    ensures ChainsOk(q, Without(chains, k)) && ChainOk(q, chains[k])
  {
    forall i | 0 <= i < |Without(chains, k)| ensures ChainOk(q, Without(chains, k)[i]) {
      assert Without(chains, k)[i] == chains[if i < k then i else i + 1];
    }
  }

  lemma ChainsMore(q: Queue, chains: seq<seq<nat>>, c: seq<nat>)
    requires ChainsOk(q, chains) && ChainOk(q, c)
    ensures ChainsOk(q, chains + [c])
  {
  }

  /** A completion never lands on one the driver has yet to see. */
  lemma FinishSafe(q: Queue, p: Plan, k: nat)
    requires Rep(q, p) && k < |p.busy| && Room(Size(q), p.done)
    ensures p.busy[k] != [] && Rep(Finish(q, p.busy[k][0]), Finished(p, k))
  {
    assert ChainOk(q, p.busy[k]);
    FlightFits(q, p);
    NamesMore(q.used, p.reaped, p.done, p.busy[k]);
    Wrapped(p.reaped + |p.done|);
    FinishLists(q, p, k);
    SameLists(q, Finish(q, p.busy[k][0]), Finished(p, k));
  }

  // Reaping.

  lemma {:induction false} WalkIs(q: Queue, c: seq<nat>, limit: nat)
    requires ChainOk(q, c) && |c| <= limit
    ensures Walk(q, c[0], limit) == c
    decreases |c|
  {
    assert LinkOk(q, c, 0);
    if |c| > 1 {
      assert ChainOk(q, c[1..]) by {
        forall i | 0 <= i < |c[1..]| ensures LinkOk(q, c[1..], i) { assert LinkOk(q, c, i + 1); }
      }
      WalkIs(q, c[1..], limit - 1);
      assert c == [c[0]] + c[1..];
    } else {
      assert c == [c[0]];
    }
  }

  lemma {:induction false} FreedElsewhere(q: Queue, ids: seq<nat>, k: nat, x: nat)
    requires k <= |ids| && x !in ids[..k]
    ensures At(Freed(q, ids, k).next, x) == At(q.next, x)
  {
    if k > 0 {
      assert ids[..k - 1] == ids[..k][..k - 1] && ids[k - 1] == ids[..k][k - 1];
      FreedElsewhere(q, ids, k - 1, x);
    }
  }

  lemma NotBefore(c: seq<nat>, k: nat)
    requires k < |c| && Distinct(c)
    ensures c[k] !in c[..k]
  {
    forall i: nat | i < k ensures c[..k][i] != c[k] { assert Differ(c, i, k); }
  }

  /** The freed chain ends up reversed at the front of the free list. */
  lemma {:induction false} FreedThreads(q: Queue, c: seq<nat>, k: nat, free: seq<nat>)
    requires k <= |c| && Shaped(q) && Threaded(q.next, q.freeHead, free)
    requires Distinct(c) && Disjoint(free, c) && forall i | 0 <= i < |c| :: c[i] < Size(q)
    ensures Threaded(Freed(q, c, k).next, Freed(q, c, k).freeHead, Back(c, k) + free)
  {
    if k == 0 {
      assert Back(c, 0) + free == free;
    } else {
      FreedThreads(q, c, k - 1, free);
      NotBefore(c, k - 1);
      NotBack(c, k - 1, c[k - 1]);
      assert Back(c, k) + free == [c[k - 1]] + (Back(c, k - 1) + free);
      ThreadFront(Freed(q, c, k - 1), c[k - 1], Back(c, k - 1) + free);
    }
  }

  lemma ThreadFront(f: Queue, x: nat, list: seq<nat>)
    requires Threaded(f.next, f.freeHead, list) && x !in list && x < Size(f)
    ensures Threaded(Put(f.next, x, f.freeHead), x, [x] + list)
  {
    var list', next := [x] + list, Put(f.next, x, f.freeHead);
    forall i: nat | i + 1 < |list'| ensures ThreadAt(next, list', i) {
      if i > 0 { assert ThreadAt(f.next, list, i - 1); }
    }
  }

  lemma {:induction false} NotBack(c: seq<nat>, k: nat, x: nat)
    requires k <= |c| && x !in c[..k]
    ensures x !in Back(c, k)
  {
    if k > 0 {
      assert c[k - 1] == c[..k][k - 1] && c[..k - 1] == c[..k][..k - 1];
      NotBack(c, k - 1, x);
    }
  }

  lemma DoneIsApart(p: Plan, size: nat)
    requires Partition(p, size) && p.done != []
    ensures var c, p' := p.done[0], p.(done := p.done[1..]);
            Distinct(c) && Disjoint(p.free, c) && ApartFromAll(c, p') && forall i | 0 <= i < |c| :: c[i] < size
  {
    var c, p' := p.done[0], p.(done := p.done[1..]);
    HeldFirst(p.done);
    forall x: nat | true ensures multiset(c)[x] + Held(p'.unread)[x] + Held(p'.busy)[x] + Held(p'.done)[x] <= 1 {
      assert Everything(p)[x] <= 1;
    }
    IsApart(c, p');
    FreeIsApart(p, size);
    assert Distinct(c) by {
      forall x: nat | true ensures multiset(c)[x] <= 1 { assert Everything(p)[x] <= 1; }
      DistinctOnce(c);
    }
    assert Disjoint(p.free, c);
    forall i | 0 <= i < |c| ensures c[i] < size {
      HasPart(p.done, 0, c[i]);
      assert Everything(p)[p.done[0][i]] >= 1;
    }
  }

  lemma DistinctOnce(c: seq<nat>)
    requires forall x: nat :: multiset(c)[x] <= 1
    ensures Distinct(c)
  {
    forall i: nat, j: nat | i < j < |c| ensures Differ(c, i, j) {
      assert multiset(c)[c[i]] <= 1;
      if c[i] == c[j] { TwiceCounts(c, i, j); }
    }
  }

  lemma FreedKeepsChains(q: Queue, c: seq<nat>, chains: seq<seq<nat>>)
    requires Shaped(q) && ChainsOk(q, chains) && DisjointFrom(c, chains)
    ensures ChainsOk(Freed(q, c, |c|), chains)
  {
    var f := Freed(q, c, |c|);
    forall k | 0 <= k < |chains| ensures Same(q, f, chains[k]) {
      assert Disjoint(c, chains[k]);
      forall i | 0 <= i < |chains[k]| ensures SameAt(q, f, chains[k][i]) {
        assert c[..|c|] == c;
        FreedElsewhere(q, c, |c|, chains[k][i]);
      }
    }
    SameChains(q, f, chains);
  }

  lemma ReapLists(q: Queue, p: Plan)
    requires Shaped(q) && Lists(q, p) && p.done != []
    ensures Lists(Freed(q, p.done[0], |p.done[0]|), Reaped(p))
  {
    var c := p.done[0];
    var f := Freed(q, c, |c|);
    DoneIsApart(p, Size(q));
    FreedThreads(q, c, |c|, p.free);
    BackIs(c, |c|);
    FreedKeepsChains(q, c, p.unread);
    FreedKeepsChains(q, c, p.busy);
    assert ChainsOk(q, p.done[1..]);
    FreedKeepsChains(q, c, p.done[1..]);
    ReapConserves(p);
  }

  /** Reaping frees exactly the oldest finished chain, found from the used ring. */
  lemma ReapSafe(q: Queue, p: Plan)
    requires Rep(q, p) && p.done != []
    ensures At(q.used, q.lastUsed % Size(q)) == p.done[0][0]
    ensures Reap(q) == Freed(q.(lastUsed := (q.lastUsed + 1) % U16), p.done[0], |p.done[0]|)
    ensures Rep(Reap(q), Reaped(p))
  {
    var c, u := p.done[0], q.(lastUsed := (q.lastUsed + 1) % U16);
    NamesFewer(q.used, p.reaped, p.done);
    Wrapped(p.reaped);
    assert ChainOk(q, c);
    FlightFits(q, p);
    ChainFits(q, p);
    WalkIs(q, c, Size(q));
    SameLists(q, u, p);
    ReapLists(u, p);
  }

  lemma ChainFits(q: Queue, p: Plan)
    requires Lists(q, p) && p.done != []
    ensures |p.done[0]| <= Size(q)
  {
    HeldFirst(p.done);
    BagSize(Everything(p), Size(q));
    assert |Everything(p)| >= |multiset(p.done[0])|;
  }

  /** The two 16-bit indices differ exactly when something is waiting, for all their wrapping. */
  lemma IndicesTell(q: Queue, p: Plan)
    requires Rep(q, p)
    ensures q.usedIdx != q.lastUsed <==> p.done != []
    ensures q.availIdx != p.taken % U16 <==> p.unread != []
  {
    FlightFits(q, p);
  }

  // Every run.

  datatype Step = Post(bufs: seq<nat>) | DeviceTakes | DeviceFinishes(which: nat) | Wait

  datatype Link = Link(q: Queue, p: Plan)

  /** The driver acts on what the queue says; the device takes in order and finishes in any order. */
  ghost function Next(l: Link, step: Step): Link
    requires Size(l.q) > 0
  {
    match step
    case Post(bufs) =>
      if Accepts(l.q, |bufs|) && |bufs| <= |l.p.free| then Link(Submit(l.q, bufs), Submitted(l.p, |bufs|))
      else Link(Submit(l.q, bufs), l.p)
    case DeviceTakes => if l.p.unread != [] then Link(l.q, Taken(l.p)) else l
    case DeviceFinishes(k) =>
      if k < |l.p.busy| && l.p.busy[k] != [] then Link(Finish(l.q, l.p.busy[k][0]), Finished(l.p, k)) else l
    case Wait => if l.q.usedIdx == l.q.lastUsed then l else Link(Reap(l.q), if l.p.done != [] then Reaped(l.p) else l.p)
  }

  ghost function Run(l: Link, steps: seq<Step>): (r: Link)
    requires Size(l.q) > 0
    ensures Size(r.q) == Size(l.q)
  {
    if steps == [] then l else Next(Run(l, steps[..|steps| - 1]), steps[|steps| - 1])
  }

  lemma StepSafe(l: Link, step: Step)
    requires Rep(l.q, l.p) && U16 % Size(l.q) == 0
    ensures Rep(Next(l, step).q, Next(l, step).p)
  {
    match step
    case Post(bufs) => if Accepts(l.q, |bufs|) { SubmitSafe(l.q, l.p, bufs); }
    case DeviceTakes => if l.p.unread != [] { TakeSafe(l.q, l.p); }
    case DeviceFinishes(k) => if k < |l.p.busy| { FinishSafe(l.q, l.p, k); }
    case Wait =>
      IndicesTell(l.q, l.p);
      if l.p.done != [] { ReapSafe(l.q, l.p); }
  }

  function Start(size: nat): Link { Link(Fresh(size), Plan(seq(size, i => i), [], [], [], 0, 0)) }

  lemma {:induction false} CountUp(size: nat, x: nat)
    ensures multiset(seq(size, i => i))[x] == if x < size then 1 else 0
  {
    if size > 0 {
      CountUp(size - 1, x);
      assert seq(size, i => i) == seq(size - 1, i => i) + [size - 1];
    }
  }

  lemma StartSafe(size: nat)
    requires 0 < size <= QUEUE_MAX
    ensures Rep(Start(size).q, Start(size).p)
  {
    forall x: nat ensures Everything(Start(size).p)[x] == if x < size then 1 else 0 { CountUp(size, x); }
  }

  /**
   * In every run, whatever the device takes and finishes when: each descriptor is free or in exactly one chain
   * in flight, the free count is exact, every chain still reads back as it was submitted, and the avail and used
   * rings name exactly the chains not yet taken and not yet reaped, oldest first.
   */
  lemma {:induction false} EveryRunPartitions(size: nat, steps: seq<Step>)
    requires 0 < size <= QUEUE_MAX && U16 % size == 0
    ensures var l := Run(Start(size), steps);
            Rep(l.q, l.p) && |l.p.unread| + |l.p.busy| + |l.p.done| + l.q.numFree <= size
  {
    if steps == [] {
      StartSafe(size);
    } else {
      EveryRunPartitions(size, steps[..|steps| - 1]);
      StepSafe(Run(Start(size), steps[..|steps| - 1]), steps[|steps| - 1]);
    }
    var l := Run(Start(size), steps);
    FlightFits(l.q, l.p);
  }
}
