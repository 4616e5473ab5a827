/** The virtio split queue (drivers/virtio/mod.rs): a free list threaded through the descriptors, and the two rings. */
module VirtioModel {

  const U16 := 0x1_0000
  const QUEUE_MAX := 256

  /**
   * Per descriptor: its next field, whether that continues a chain, and the buffer it carries. Then the head of
   * the free list and the free count; the avail ring with its index; the used ring with the device's index, and
   * the driver's own. All three indices are 16 bits wide.
   */
  datatype Queue = Queue(
    next: seq<nat>, more: seq<bool>, buf: seq<nat>, freeHead: nat, numFree: nat,
    ring: seq<nat>, availIdx: nat, used: seq<nat>, usedIdx: nat, lastUsed: nat)

  function Size(q: Queue): nat { |q.next| }

  ghost predicate Shaped(q: Queue) {
    |q.next| == |q.more| == |q.buf| == |q.ring| == |q.used| && 0 < |q.next| <= QUEUE_MAX
  }

  function At(s: seq<nat>, i: nat): nat { if i < |s| then s[i] else 0 }

  function Put<T>(s: seq<T>, i: nat, x: T): (r: seq<T>)
    ensures |r| == |s| && forall j | 0 <= j < |s| :: r[j] == if j == i then x else s[j]
  {
    if i < |s| then s[i := x] else s
  }

  /** `k` descriptors off the free list, following next fields. */
  function Indices(next: seq<nat>, head: nat, k: nat): (ids: seq<nat>)
    ensures |ids| == k
    decreases k
  {
    if k == 0 then [] else [head] + Indices(next, At(next, head), k - 1)
  }

  /** Where the free list goes on after `k` descriptors. */
  function Follow(next: seq<nat>, head: nat, k: nat): nat
    decreases k
  {
    if k == 0 then head else Follow(next, At(next, head), k - 1)
  }

  /** Fills in the first `k` descriptors of a chain. */
  function Chained(q: Queue, ids: seq<nat>, bufs: seq<nat>, k: nat): (c: Queue)
    requires k <= |ids| == |bufs|
    ensures Size(c) == Size(q) && (Shaped(q) ==> Shaped(c))
    ensures c == q.(next := c.next, more := c.more, buf := c.buf)
  {
    if k == 0 then q
    else
      var c := Chained(q, ids, bufs, k - 1);
      var i := ids[k - 1];
      c.(next := Put(c.next, i, if k < |ids| then ids[k] else 0), more := Put(c.more, i, k < |ids|),
         buf := Put(c.buf, i, bufs[k - 1]))
  }

  predicate Accepts(q: Queue, count: nat) { 0 < count <= 8 && count <= q.numFree }

  /** The avail ring gets one more head. */
  function Publish(q: Queue, head: nat): Queue
    requires Size(q) > 0
  {
    q.(ring := Put(q.ring, q.availIdx % Size(q), head), availIdx := (q.availIdx + 1) % U16)
  }

  function Unlisted(q: Queue, count: nat): Queue
    requires count <= q.numFree
  {
    q.(freeHead := Follow(q.next, q.freeHead, count), numFree := q.numFree - count)
  }

  function Submit(q: Queue, bufs: seq<nat>): Queue
    requires Size(q) > 0
  {
    if !Accepts(q, |bufs|) then q
    else
      var ids := Indices(q.next, q.freeHead, |bufs|);
      Publish(Chained(Unlisted(q, |bufs|), ids, bufs, |bufs|), ids[0])
  }

  /** Gives the first `k` descriptors of a chain back, each onto the front of the free list. */
  function Freed(q: Queue, ids: seq<nat>, k: nat): (c: Queue)
    requires k <= |ids|
    ensures Size(c) == Size(q) && (Shaped(q) ==> Shaped(c))
    ensures c == q.(next := c.next, freeHead := c.freeHead, numFree := q.numFree + k)
  {
    if k == 0 then q
    else
      var c := Freed(q, ids, k - 1);
      c.(next := Put(c.next, ids[k - 1], c.freeHead), freeHead := ids[k - 1], numFree := c.numFree + 1)
  }

  /** The descriptors of the chain at `head`, read off the flags and next fields. */
  function Walk(q: Queue, head: nat, limit: nat): seq<nat>
    decreases limit
  {
    if limit == 0 || head >= |q.more| then []
    else if q.more[head] then [head] + Walk(q, At(q.next, head), limit - 1)
    else [head]
  }

  /** The device finishes the chain at `head`. */
  function Finish(q: Queue, head: nat): Queue
    requires Size(q) > 0
  {
    q.(used := Put(q.used, q.usedIdx % Size(q), head), usedIdx := (q.usedIdx + 1) % U16)
  }

  function Reap(q: Queue): Queue
    requires Size(q) > 0
  {
    var c := Walk(q, At(q.used, q.lastUsed % Size(q)), Size(q));
    Freed(q.(lastUsed := (q.lastUsed + 1) % U16), c, |c|)
  }

  /** Every descriptor free, threaded in order; the last one's next field is past the table. */
  function Fresh(size: nat): Queue {
    Queue(seq(size, i => i + 1), seq(size, _ => false), seq(size, _ => 0), 0, size, seq(size, _ => 0), 0,
          seq(size, _ => 0), 0, 0)
  }
}
