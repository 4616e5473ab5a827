/** What the device gets: the buffers posted, chain by chain, in the order they were posted. */
module VirtioOrder {
  import opened VirtioModel
  import opened VirtioProofs

  /** The buffers a chain's descriptors carry. */
  function Read(q: Queue, c: seq<nat>): (bs: seq<nat>)
    ensures |bs| == |c|
  {
    seq(|c|, i requires 0 <= i < |c| => At(q.buf, c[i]))
  }

  function ReadAll(q: Queue, cs: seq<seq<nat>>): (r: seq<seq<nat>>)
    ensures |r| == |cs|
  {
    seq(|cs|, i requires 0 <= i < |cs| => Read(q, cs[i]))
  }

  /**
   * submit_chain() takes a list of buffers if and only if it is not empty, at most 8 long and there are descriptors.
   */
  lemma SubmitsIff(q: Queue, p: Plan, bufs: seq<nat>)
    requires Rep(q, p) && Room(Size(q), p.unread)
    ensures Submit(q, bufs).availIdx
         == if 0 < |bufs| <= 8 && |bufs| <= |p.free| then (q.availIdx + 1) % U16 else q.availIdx
    ensures !(0 < |bufs| <= 8 && |bufs| <= |p.free|) ==> Submit(q, bufs) == q
    ensures 0 < |bufs| <= 8 && |bufs| <= |p.free| ==> Rep(Submit(q, bufs), Submitted(p, |bufs|))
  {
    if 0 < |bufs| <= 8 && |bufs| <= |p.free| { SubmitSafe(q, p, bufs); }
  }

  // What a step posts, and what the device reads out of memory in it.

  ghost function Posted(l: Link, step: Step): seq<seq<nat>> {
    if step.Post? && 0 < |step.bufs| <= 8 && |step.bufs| <= |l.p.free| then [step.bufs] else []
  }

  /** The device goes by its own count of heads taken, and follows next fields while the flag says so. */
  ghost function Took(l: Link, step: Step): seq<seq<nat>> {
    if step.DeviceTakes? && l.p.unread != [] && Size(l.q) > 0 then
      [Read(l.q, Walk(l.q, At(l.q.ring, Slot(l.p.taken, Size(l.q))), 8))]
    else []
  }

  ghost function AllPosted(size: nat, steps: seq<Step>): seq<seq<nat>>
    requires size > 0
  {
    if steps == [] then []
    else
      AllPosted(size, steps[..|steps| - 1]) + Posted(Run(Start(size), steps[..|steps| - 1]), steps[|steps| - 1])
  }

  ghost function AllTook(size: nat, steps: seq<Step>): seq<seq<nat>>
    requires size > 0
  {
    if steps == [] then []
    else AllTook(size, steps[..|steps| - 1]) + Took(Run(Start(size), steps[..|steps| - 1]), steps[|steps| - 1])
  }

  lemma ReadsSame(q: Queue, r: Queue, cs: seq<seq<nat>>)
    requires forall k | 0 <= k < |cs| :: Read(r, cs[k]) == Read(q, cs[k])
    ensures ReadAll(r, cs) == ReadAll(q, cs)
  {
  }

  lemma OldReadsStay(q: Queue, p: Plan, bufs: seq<nat>, k: nat)
    requires Rep(q, p) && Accepts(q, |bufs|) && Room(Size(q), p.unread) && k < |p.unread|
    ensures Read(Submit(q, bufs), p.unread[k]) == Read(q, p.unread[k])
  {
    SubmitSafe(q, p, bufs);
    FreeIsApart(p, Size(q));
    var c := p.unread[k];
    assert ChainOk(q, c) && Disjoint(p.free, c);
    forall i | 0 <= i < |c| ensures At(Submit(q, bufs).buf, c[i]) == At(q.buf, c[i]) {
      assert LinkOk(q, c, i) && c[i] !in p.free[..|bufs|];
    }
  }

  lemma PostReads(q: Queue, p: Plan, bufs: seq<nat>)
    requires Rep(q, p) && Accepts(q, |bufs|) && Room(Size(q), p.unread)
    ensures ReadAll(Submit(q, bufs), Submitted(p, |bufs|).unread) == ReadAll(q, p.unread) + [bufs]
  {
    var r, c := Submit(q, bufs), p.free[..|bufs|];
    forall k | 0 <= k < |p.unread| ensures Read(r, p.unread[k]) == Read(q, p.unread[k]) { OldReadsStay(q, p, bufs, k); }
    SubmitSafe(q, p, bufs);
    assert Read(r, c) == bufs;
  }

  lemma TakeReads(q: Queue, p: Plan)
    requires Rep(q, p) && p.unread != []
    ensures ReadAll(q, p.unread)
         == [Read(q, Walk(q, At(q.ring, Slot(p.taken, Size(q))), 8))] + ReadAll(q, Taken(p).unread)
  {
    TakeSafe(q, p);
    assert ChainOk(q, p.unread[0]);
    WalkIs(q, p.unread[0], 8);
  }

  lemma StepReads(l: Link, step: Step)
    requires Rep(l.q, l.p) && U16 % Size(l.q) == 0
    ensures ReadAll(l.q, l.p.unread) + Posted(l, step)
         == Took(l, step) + ReadAll(Next(l, step).q, Next(l, step).p.unread)
  {
    match step
    case Post(bufs) =>
      SubmitsIff(l.q, l.p, bufs);
      if Accepts(l.q, |bufs|) { PostReads(l.q, l.p, bufs); }
    case DeviceTakes => if l.p.unread != [] { TakeReads(l.q, l.p); }
    case DeviceFinishes(k) => ReadsSame(l.q, Next(l, step).q, l.p.unread);
    case Wait => ReadsSame(l.q, Next(l, step).q, l.p.unread);
  }

  /**
   * In every run, whatever the driver posts and the device takes and finishes when: what the device has read, and then
   * what waits in the avail ring, is exactly what was posted, in order.
   */
  lemma {:induction false} BuffersArriveInOrder(size: nat, steps: seq<Step>)
    requires 0 < size <= QUEUE_MAX && U16 % size == 0
    ensures var l := Run(Start(size), steps);
      AllPosted(size, steps) == AllTook(size, steps) + ReadAll(l.q, l.p.unread)
  {
    if steps == [] {
      assert ReadAll(Start(size).q, []) == [];
    } else {
      var n := |steps| - 1;
      BuffersArriveInOrder(size, steps[..n]);
      EveryRunPartitions(size, steps[..n]);
      var l := Run(Start(size), steps[..n]);
      StepReads(l, steps[n]);
      Regroup(AllTook(size, steps[..n]), ReadAll(l.q, l.p.unread), Posted(l, steps[n]), Took(l, steps[n]),
              ReadAll(Next(l, steps[n]).q, Next(l, steps[n]).p.unread));
    }
  }

  lemma Regroup(a: seq<seq<nat>>, b: seq<seq<nat>>, c: seq<seq<nat>>, d: seq<seq<nat>>, e: seq<seq<nat>>)
    requires b + c == d + e
    ensures a + b + c == a + d + e
  {
    assert a + b + c == a + (b + c);
    assert a + d + e == a + (d + e);
  }
}
