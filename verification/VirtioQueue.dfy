/** The virtqueue as the driver keeps it: the descriptor table and rings are updated in place. */
module VirtioQueue {
  import opened VirtioModel
  import opened VirtioProofs

  class Virtqueue {
    const next: array<nat>
    const more: array<bool>
    const buf: array<nat>
    const ring: array<nat>
    const used: array<nat>
    var freeHead: nat
    var numFree: nat
    var availIdx: nat
    var usedIdx: nat
    var lastUsed: nat

    ghost predicate Valid()
      reads this
    {
      && next.Length == more.Length == buf.Length == ring.Length == used.Length
      && 0 < next.Length <= QUEUE_MAX
      && next != buf && next != ring && next != used && buf != ring && buf != used && ring != used
    }

    /** The queue's value. */
    ghost function Now(): Queue
      reads this, next, more, buf, ring, used
    {
      Queue(next[..], more[..], buf[..], freeHead, numFree, ring[..], availIdx, used[..], usedIdx, lastUsed)
    }

    constructor (size: nat)
      requires 0 < size <= QUEUE_MAX
      ensures Valid() && Now() == Fresh(size) && fresh(next) && fresh(more) && fresh(buf) && fresh(ring) && fresh(used)
    {
      next := new nat[size](_ => 0);
      more := new bool[size](_ => false);
      buf := new nat[size](_ => 0);
      ring := new nat[size](_ => 0);
      used := new nat[size](_ => 0);
      freeHead, numFree, availIdx, usedIdx, lastUsed := 0, size, 0, 0, 0;
      new;
      ThreadAll();
    }

    /** Every descriptor's next field names the one after it. */
    method ThreadAll()
      modifies next
      ensures next[..] == seq(next.Length, i => i + 1)
    {
      for i := 0 to next.Length
        invariant forall j | 0 <= j < i :: next[j] == j + 1
      {
        next[i] := i + 1;
      }
    }

    /** Walks the chain at `head`, putting each descriptor on the front of the free list. */
    method FreeChain(head: nat, ghost chain: seq<nat>)
      requires Valid() && ChainOk(Now(), chain) && chain[0] == head && Distinct(chain)
      modifies this`freeHead, this`numFree, next
      ensures Now() == Freed(old(Now()), chain, |chain|)
    {
      var i := head;
      ghost var k := 0;
      ghost var q := Now();
      assert LinkOk(q, chain, 0);
      while true
        invariant k < |chain| && i == chain[k] < next.Length && Now() == Freed(q, chain, k)
        decreases |chain| - k
      {
        assert LinkOk(q, chain, k);
        NotBefore(chain, k);
        FreedElsewhere(q, chain, k, i);
        var hasNext := more[i];
        var following := next[i];
        next[i] := freeHead;
        freeHead := i;
        numFree := numFree + 1;
        k := k + 1;
        assert Now() == Freed(q, chain, k);
        if !hasNext { break; }
        assert LinkOk(q, chain, k);
        i := following;
      }
    }

    /** Reads `count` descriptors off the free list before their next fields are put to another use. */
    method PickFree(count: nat) returns (indices: array<nat>)
      requires Valid() && count <= numFree
      requires InRange(Indices(next[..], freeHead, count), next.Length)
      modifies this`freeHead, this`numFree
      ensures fresh(indices) && indices[..] == Indices(next[..], old(freeHead), count)
      ensures Now() == Unlisted(old(Now()), count)
    {
      indices := new nat[count](_ => 0);
      var cur := freeHead;
      ghost var n := next[..];
      for i := 0 to count
        invariant cur == Follow(n, freeHead, i)
        invariant forall j | 0 <= j < i :: indices[j] == Follow(n, freeHead, j)
        modifies indices
      {
        IndexAt(n, freeHead, count, i);
        FollowOn(n, freeHead, i);
        indices[i] := cur;
        cur := next[cur];
      }
      forall j | 0 <= j < count ensures indices[j] == Indices(n, freeHead, count)[j] { IndexAt(n, freeHead, count, j); }
      assert indices[..] == Indices(n, freeHead, count);
      freeHead := cur;
      numFree := numFree - count;
    }

    /** Fills in the chain's descriptors, each pointing at the one after it. */
    method FillIn(indices: array<nat>, bufs: seq<nat>)
      requires Valid() && indices.Length == |bufs| && InRange(indices[..], next.Length)
      requires indices != next && indices != buf && indices != ring && indices != used
      modifies next, more, buf
      ensures Now() == Chained(old(Now()), old(indices[..]), bufs, |bufs|)
    {
      ghost var q, ids := Now(), indices[..];
      for i := 0 to |bufs|
        invariant indices[..] == ids && Now() == Chained(q, ids, bufs, i)
      {
        var d := indices[i];
        assert d == ids[i];
        buf[d] := bufs[i];
        if i + 1 < |bufs| {
          more[d] := true;
          next[d] := indices[i + 1];
        } else {
          more[d] := false;
          next[d] := 0;
        }
        assert Now() == Chained(q, ids, bufs, i + 1);
      }
    }

    method SubmitChain(bufs: seq<nat>, ghost p: Plan)
      requires Valid() && Rep(Now(), p) && Room(next.Length, p.unread)
      modifies this`freeHead, this`numFree, this`availIdx, next, more, buf, ring
      ensures Now() == Submit(old(Now()), bufs)
      ensures Rep(Now(), if 0 < |bufs| <= 8 && |bufs| <= |p.free| then Submitted(p, |bufs|) else p)
    {
      var count := |bufs|;
      if count == 0 || count > 8 || numFree < count { return; }
      ghost var q := Now();
      SubmitSafe(q, p, bufs);
      PicksFree(q, p, count);
      var indices := PickFree(count);
      FillIn(indices, bufs);
      PublishHead(indices[0]);
    }

    /** The entry is in the avail ring before the index moves. */
    method PublishHead(head: nat)
      requires Valid()
      modifies this`availIdx, ring
      ensures Now() == Publish(old(Now()), head)
    {
      ring[availIdx % ring.Length] := head;
      availIdx := (availIdx + 1) % U16;
    }

    /** The head of the oldest finished chain, reclaimed, if the device has finished one. */
    method TryWait(ghost p: Plan) returns (some: bool, id: nat)
      requires Valid() && Rep(Now(), p)
      modifies this`freeHead, this`numFree, this`lastUsed, next
      ensures some <==> p.done != []
      ensures if some then Now() == Reap(old(Now())) && [id] <= p.done[0] && Rep(Now(), Reaped(p))
              else Now() == old(Now())
    {
      some, id := false, 0;
      IndicesTell(Now(), p);
      if usedIdx == lastUsed { return; }
      ReapSafe(Now(), p);
      DoneIsApart(p, next.Length);
      ghost var q := Now();
      some, id := true, used[lastUsed % used.Length];
      lastUsed := (lastUsed + 1) % U16;
      SameShape(q, Now(), p.done[0]);
      FreeChain(id, p.done[0]);
    }
  }

  lemma PicksFree(q: Queue, p: Plan, count: nat)
    requires Rep(q, p) && count <= |p.free|
    ensures Indices(q.next, q.freeHead, count) == p.free[..count] && InRange(p.free[..count], Size(q))
  {
    IndicesAre(q.next, q.freeHead, p.free, count);
    FreeIsDistinct(p, Size(q));
  }

  lemma {:induction false} FollowOn(next: seq<nat>, head: nat, k: nat)
    ensures Follow(next, head, k + 1) == At(next, Follow(next, head, k))
    decreases k
  {
    if k > 0 { FollowOn(next, At(next, head), k - 1); }
  }

  lemma {:induction false} IndexAt(next: seq<nat>, head: nat, count: nat, i: nat)
    requires i < count
    ensures Indices(next, head, count)[i] == Follow(next, head, i)
    decreases i
  {
    if i > 0 { IndexAt(next, At(next, head), count - 1, i - 1); }
  }
}
