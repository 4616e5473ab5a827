/** Queue sizes that do not divide 65536: the avail ring loses an entry when its index wraps. */
module VirtioWrap {
  import opened VirtioModel
  import opened VirtioProofs

  lemma RunMore(l: Link, steps: seq<Step>, step: Step)
    requires Size(l.q) > 0
    ensures Run(l, steps + [step]) == Next(Run(l, steps), step)
  {
    assert (steps + [step])[..|steps|] == steps;
  }

  /** Nothing in flight, after `n` chains came and went. */
  ghost predicate Idle(l: Link, n: nat) {
    Rep(l.q, l.p) && l.p.unread == [] && l.p.busy == [] && l.p.done == [] && l.p.taken == n && l.p.reaped == n
  }

  /** One chain there and back. */
  function Trip(): seq<Step> { [Post([0]), DeviceTakes, DeviceFinishes(0), Wait] }

  lemma AllFree(l: Link, n: nat)
    requires Idle(l, n)
    ensures l.q.numFree == |l.p.free| == Size(l.q)
  {
    BagSize(Everything(l.p), Size(l.q));
  }

  lemma TripKeepsIdle(l: Link, n: nat)
    requires Idle(l, n)
    ensures var l' := Next(Next(Next(Next(l, Post([0])), DeviceTakes), DeviceFinishes(0)), Wait);
            Idle(l', n + 1) && Size(l'.q) == Size(l.q)
  {
    AllFree(l, n);
    SubmitSafe(l.q, l.p, [0]);
    var l1 := Next(l, Post([0]));
    TakeSafe(l1.q, l1.p);
    var l2 := Next(l1, DeviceTakes);
    FinishSafe(l2.q, l2.p, 0);
    var l3 := Next(l2, DeviceFinishes(0));
    IndicesTell(l3.q, l3.p);
    ReapSafe(l3.q, l3.p);
  }

  function Trips(n: nat): seq<Step> { if n == 0 then [] else Trips(n - 1) + Trip() }

  lemma RunTrip(l: Link, steps: seq<Step>)
    requires Size(l.q) > 0
    ensures var l1 := Run(l, steps);
            Run(l, steps + Trip()) == Next(Next(Next(Next(l1, Post([0])), DeviceTakes), DeviceFinishes(0)), Wait)
  {
    RunMore(l, steps, Post([0]));
    RunMore(l, steps + [Post([0])], DeviceTakes);
    RunMore(l, steps + [Post([0])] + [DeviceTakes], DeviceFinishes(0));
    RunMore(l, steps + [Post([0])] + [DeviceTakes] + [DeviceFinishes(0)], Wait);
    assert steps + [Post([0])] + [DeviceTakes] + [DeviceFinishes(0)] + [Wait] == steps + Trip();
  }

  lemma {:induction false} IdleAfter(size: nat, n: nat)
    requires 0 < size <= QUEUE_MAX
    ensures Idle(Run(Start(size), Trips(n)), n)
  {
    if n == 0 {
      StartSafe(size);
    } else {
      IdleAfter(size, n - 1);
      TripKeepsIdle(Run(Start(size), Trips(n - 1)), n - 1);
      RunTrip(Start(size), Trips(n - 1));
    }
  }

  /** `j` chains posted from there, none of them taken. */
  ghost predicate Waiting(l: Link, n: nat, j: nat) {
    && Shaped(l.q) && Lists(l.q, l.p) && l.p.taken == n && |l.p.unread| == j && l.p.busy == [] && l.p.done == []
    && |l.p.free| == Size(l.q) - j && l.q.availIdx == (n + j) % U16
  }

  lemma IdleIsWaiting(l: Link, n: nat)
    requires Idle(l, n)
    ensures Waiting(l, n, 0)
  {
    AllFree(l, n);
  }

  /** A post puts the new chain's head in the slot the index points at. */
  lemma PostWaits(l: Link, n: nat, j: nat)
    requires Waiting(l, n, j) && j < Size(l.q)
    ensures var l' := Next(l, Post([0]));
            && Waiting(l', n, j + 1) && Size(l'.q) == Size(l.q) && l'.p.unread[..j] == l.p.unread
               && l'.p.unread[j] == l.p.free[..1]
            && l'.q.ring == Put(l.q.ring, Slot(n + j, Size(l.q)), l.p.free[0])
  {
    var c := PostLists(l.q, l.p);
    PublishIs(l.q, c, l.p.free[0], n + j);
    assert Next(l, Post([0])) == Link(Publish(c, l.p.free[0]), Submitted(l.p, 1));
  }

  lemma PublishIs(q: Queue, c: Queue, x: nat, s: nat)
    requires Shaped(q) && Shaped(c) && q.availIdx == s % U16
    requires c == q.(next := c.next, more := c.more, buf := c.buf, freeHead := c.freeHead, numFree := c.numFree)
    ensures Size(Publish(c, x)) == Size(q)
    ensures Publish(c, x).ring == Put(q.ring, Slot(s, Size(q)), x) && Publish(c, x).availIdx == (s + 1) % U16
  {
    Wrapped(s);
  }

  lemma PostLists(q: Queue, p: Plan) returns (c: Queue)
    requires Shaped(q) && Lists(q, p) && p.free != []
    ensures Accepts(q, 1) && Shaped(c)
            && c == q.(next := c.next, more := c.more, buf := c.buf, freeHead := c.freeHead, numFree := c.numFree)
    ensures Submit(q, [0]) == Publish(c, p.free[0]) && Shaped(Submit(q, [0])) && Lists(Submit(q, [0]), Submitted(p, 1))
  {
    var bufs := [0];
    SubmitLists(q, p, bufs);
    c := Chained(Unlisted(q, 1), p.free[..1], bufs, 1);
    assert Submit(q, bufs) == Publish(c, p.free[..1][0]);
    SameLists(c, Submit(q, bufs), Submitted(p, 1));
  }

  function Posts(j: nat): seq<Step> { if j == 0 then [] else Posts(j - 1) + [Post([0])] }

  lemma {:induction false} WaitingAfter(size: nat, n: nat, j: nat) returns (l: Link)
    requires 0 < size <= QUEUE_MAX && j <= size
    ensures l == Run(Start(size), Trips(n) + Posts(j)) && Size(l.q) == size && Waiting(l, n, j)
    decreases j
  {
    if j == 0 {
      l := Run(Start(size), Trips(n));
      IdleAfter(size, n);
      IdleIsWaiting(l, n);
      assert Trips(n) + Posts(0) == Trips(n);
    } else {
      var before := WaitingAfter(size, n, j - 1);
      l := PostedNext(before, n, j - 1, j);
      PostsMore(size, n, j);
    }
  }

  lemma PostedNext(l: Link, n: nat, i: nat, j: nat) returns (l': Link)
    requires Waiting(l, n, i) && i < Size(l.q) && j == i + 1
    ensures l' == Next(l, Post([0])) && Waiting(l', n, j)
  {
    l' := Next(l, Post([0]));
    PostWaits(l, n, i);
  }

  lemma PostsMore(size: nat, n: nat, j: nat)
    requires size > 0 && j > 0
    ensures Run(Start(size), Trips(n) + Posts(j)) == Next(Run(Start(size), Trips(n) + Posts(j - 1)), Post([0]))
  {
    var steps := Trips(n) + Posts(j - 1);
    assert steps + [Post([0])] == Trips(n) + Posts(j);
    RunMore(Start(size), steps, Post([0]));
  }

  lemma HeadsDiffer(l: Link, n: nat, j: nat, i: nat)
    requires Waiting(l, n, j) && i < j && l.p.free != []
    ensures l.p.unread[i] != [] && l.p.unread[i][0] != l.p.free[0]
  {
    FreeIsApart(l.p, Size(l.q));
    assert ChainOk(l.q, l.p.unread[i]) && Disjoint(l.p.free, l.p.unread[i]);
  }

  lemma LastPost(l: Link, n: nat, j: nat)
    requires Waiting(l, n, j) && 0 < j < Size(l.q) && Slot(n + j, Size(l.q)) == Slot(n, Size(l.q))
    ensures var l' := Next(l, Post([0])); |l'.q.ring| == Size(l.q) && !Names(l'.q.ring, l'.p.taken, l'.p.unread)
  {
    var l' := Next(l, Post([0]));
    PostWaits(l, n, j);
    HeadsDiffer(l, n, j, 0);
    assert l'.p.unread[0] == l'.p.unread[..j][0] == l.p.unread[0];
    assert !NamesAt(l'.q.ring, n, l'.p.unread, 0);
  }

  lemma LostAt(size: nat, n: nat, j: nat) returns (steps: seq<Step>)
    requires 0 < j < size <= QUEUE_MAX && Slot(n + j, size) == Slot(n, size)
    ensures !Intact(size, steps)
  {
    var l := WaitingAfter(size, n, j);
    LastPost(l, n, j);
    var before := Trips(n) + Posts(j);
    RunMore(Start(size), before, Post([0]));
    steps := before + [Post([0])];
  }

  /** A run on a ring whose size does not divide 65536, after which the oldest entry the device has not read is gone. */
  lemma EntryIsLost(size: nat) returns (steps: seq<Step>)
    requires 0 < size <= QUEUE_MAX && U16 % size != 0
    ensures !Intact(size, steps)
  {
    var s, t := Overlap(size);
    steps := LostAt(size, s, t - s);
  }

  /**
   * In every run the avail ring names every submission the device has not read, if and only if the size divides 65536.
   */
  lemma NothingOverwrittenIff(size: nat)
    requires 0 < size <= QUEUE_MAX
    ensures (forall steps :: Intact(size, steps)) <==> U16 % size == 0
  {
    if U16 % size == 0 {
      forall steps ensures Intact(size, steps) { EveryRunPartitions(size, steps); }
    } else {
      var steps := EntryIsLost(size);
    }
  }

  ghost predicate Intact(size: nat, steps: seq<Step>)
    requires size > 0
  {
    var l := Run(Start(size), steps);
    |l.q.ring| > 0 && Names(l.q.ring, l.p.taken, l.p.unread)
  }
}
