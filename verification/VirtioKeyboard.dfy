/** The keyboard's event queue (drivers/virtio/input.rs): descriptor i carries event buffer i, for ever. */
module VirtioKeyboard {
  import opened VirtioModel
  import opened VirtioProofs

  /** A chain of one descriptor carrying the buffer of its own number. */
  ghost predicate Own(q: Queue, c: seq<nat>) { |c| == 1 && At(q.buf, c[0]) == c[0] }

  ghost predicate AllOwn(q: Queue, chains: seq<seq<nat>>) { forall i | 0 <= i < |chains| :: Own(q, chains[i]) }

  function Up(from: nat, size: nat): seq<nat>
    requires from <= size
  {
    seq(size - from, i requires 0 <= i => from + i)
  }

  /** The first `count` descriptors are in flight, each with its own buffer; the rest were never used. */
  ghost predicate Matched(l: Link, count: nat) {
    && Rep(l.q, l.p) && U16 % Size(l.q) == 0 && count <= Size(l.q) && l.p.free == Up(count, Size(l.q))
    && AllOwn(l.q, l.p.unread) && AllOwn(l.q, l.p.busy) && AllOwn(l.q, l.p.done)
  }

  /** The descriptor number poll_char reads off the used ring, and so the buffer it reads. */
  function Event(q: Queue): nat
    requires Size(q) > 0
  {
    At(q.used, q.lastUsed % Size(q))
  }

  /** One turn of poll_char's loop: reap an event if there is one, and post its buffer again at once. */
  ghost function Poll(l: Link): (r: Link)
    requires Size(l.q) > 0
    ensures Size(r.q) == Size(l.q)
  {
    if l.q.usedIdx == l.q.lastUsed then l else Next(Next(l, Wait), Post([Event(l.q)]))
  }

  lemma OwnElsewhere(q: Queue, r: Queue, x: nat, chains: seq<seq<nat>>)
    requires Shaped(q) && Shaped(r) && Size(r) == Size(q) && AllOwn(q, chains) && ChainsOk(q, chains)
    requires x < Size(q) ==> At(r.buf, x) == x
    requires forall y: nat | y < Size(q) && y != x :: At(r.buf, y) == At(q.buf, y)
    ensures AllOwn(r, chains)
  {
    forall i | 0 <= i < |chains| ensures Own(r, chains[i]) {
      assert Own(q, chains[i]) && ChainOk(q, chains[i]) && LinkOk(q, chains[i], 0);
    }
  }

  /** Posting buffer `x` when descriptor `x` heads the free list keeps every descriptor with its own buffer. */
  lemma PostOwn(q: Queue, p: Plan, x: nat)
    requires Rep(q, p) && U16 % Size(q) == 0 && p.free != [] && p.free[0] == x
    requires AllOwn(q, p.unread) && AllOwn(q, p.busy) && AllOwn(q, p.done)
    ensures var l := Next(Link(q, p), Post([x]));
            && Rep(l.q, l.p) && l.p == p.(free := p.free[1..], unread := p.unread + [[x]])
            && Size(l.q) == Size(q) && AllOwn(l.q, l.p.unread) && AllOwn(l.q, l.p.busy) && AllOwn(l.q, l.p.done)
  {
    var r := Submit(q, [x]);
    assert Accepts(q, 1) && |[x]| == 1;
    SubmitSafe(q, p, [x]);
    assert p.free[..1] == [x];
    assert At(r.buf, p.free[0]) == [x][0];
    forall y: nat | y < Size(q) && y != x ensures At(r.buf, y) == At(q.buf, y) { assert y !in p.free[..1]; }
    OwnElsewhere(q, r, x, p.unread);
    OwnElsewhere(q, r, x, p.busy);
    OwnElsewhere(q, r, x, p.done);
  }

  lemma PollMatched(l: Link, count: nat)
    requires Matched(l, count)
    ensures Matched(Poll(l), count)
    ensures l.q.usedIdx != l.q.lastUsed
            ==> l.p.done != [] && l.p.done[0] == [Event(l.q)] && At(l.q.buf, Event(l.q)) == Event(l.q)
  {
    IndicesTell(l.q, l.p);
    if l.q.usedIdx != l.q.lastUsed {
      var x := Event(l.q);
      assert Own(l.q, l.p.done[0]);
      ReapSafe(l.q, l.p);
      assert l.p.done[0] == [x];
      var m := Next(l, Wait);
      assert Back([x], 1) == [x] + Back([x], 0) == [x];
      assert m.p.free == [x] + l.p.free && m.q.buf == l.q.buf;
      assert AllOwn(m.q, m.p.done) by {
        forall i | 0 <= i < |m.p.done| ensures Own(m.q, m.p.done[i]) { assert Own(l.q, l.p.done[i + 1]); }
      }
      assert AllOwn(m.q, m.p.unread) && AllOwn(m.q, m.p.busy) by {
        KeepsOwn(l.q, m.q, l.p.unread);
        KeepsOwn(l.q, m.q, l.p.busy);
      }
      PostOwn(m.q, m.p, x);
      assert m.p.free[1..] == l.p.free;
    }
  }

  lemma KeepsOwn(q: Queue, r: Queue, chains: seq<seq<nat>>)
    requires AllOwn(q, chains) && r.buf == q.buf
    ensures AllOwn(r, chains)
  {
    forall i | 0 <= i < |chains| ensures Own(r, chains[i]) { assert Own(q, chains[i]); }
  }

  /** Posting the next buffer pairs it with the descriptor of its number. */
  lemma PostMatched(l: Link, n: nat)
    requires Matched(l, n) && n < Size(l.q)
    ensures Matched(Next(l, Post([n])), n + 1)
  {
    PostOwn(l.q, l.p, n);
    assert Up(n, Size(l.q))[1..] == Up(n + 1, Size(l.q));
  }

  /** What may happen next: init posts its next buffer, the device takes or finishes, or poll_char runs. */
  datatype Turn = Posts | Takes | Finishes(which: nat) | Polls

  ghost function Play(l: Link, turn: Turn, posted: nat): (r: Link)
    requires Size(l.q) > 0
    ensures Size(r.q) == Size(l.q)
  {
    match turn
    case Posts => Next(l, Post([posted]))
    case Takes => Next(l, DeviceTakes)
    case Finishes(k) => Next(l, DeviceFinishes(k))
    case Polls => Poll(l)
  }

  /** How far init has come. */
  function PostedBy(turns: seq<Turn>): (n: nat)
    ensures n <= |turns|
  {
    if turns == [] then 0 else PostedBy(turns[..|turns| - 1]) + if turns[|turns| - 1].Posts? then 1 else 0
  }

  /** init posts `count` buffers in order, with the device already at work, and polling starts after the last. */
  ghost predicate Orderly(count: nat, turns: seq<Turn>) {
    && PostedBy(turns) <= count
    && forall i | 0 <= i < |turns| && turns[i].Polls? :: PostedBy(turns[..i]) == count
  }

  ghost function Session(size: nat, turns: seq<Turn>): (l: Link)
    requires size > 0
    ensures Size(l.q) == size
  {
    if turns == [] then Start(size)
    else
      var n := |turns| - 1;
      Play(Session(size, turns[..n]), turns[n], PostedBy(turns[..n]))
  }

  lemma TurnMatched(l: Link, turn: Turn, posted: nat)
    requires Matched(l, posted) && (turn.Posts? ==> posted < Size(l.q))
    ensures Matched(Play(l, turn, posted), if turn.Posts? then posted + 1 else posted)
  {
    match turn
    case Posts => PostMatched(l, posted);
    case Takes =>
      if l.p.unread != [] {
        TakeSafe(l.q, l.p);
        assert Own(l.q, l.p.unread[0]);
        forall i | 0 <= i < |l.p.unread[1..]|
          ensures Own(l.q, l.p.unread[1..][i])
        {
          assert Own(l.q, l.p.unread[i + 1]);
        }
      }
    case Finishes(k) =>
      if k < |l.p.busy| {
        FinishSafe(l.q, l.p, k);
        FinishOwn(l, k);
      }
    case Polls => PollMatched(l, posted);
  }

  lemma FinishOwn(l: Link, k: nat)
    requires k < |l.p.busy| && l.p.busy[k] != [] && Size(l.q) > 0
    requires AllOwn(l.q, l.p.unread) && AllOwn(l.q, l.p.busy) && AllOwn(l.q, l.p.done)
    ensures var r := Finish(l.q, l.p.busy[k][0]); var p := Finished(l.p, k);
            AllOwn(r, p.unread) && AllOwn(r, p.busy) && AllOwn(r, p.done)
  {
    var r, p := Finish(l.q, l.p.busy[k][0]), Finished(l.p, k);
    KeepsOwn(l.q, r, l.p.unread);
    forall i | 0 <= i < |p.busy| ensures Own(r, p.busy[i]) {
      assert p.busy[i] == l.p.busy[if i < k then i else i + 1];
      assert Own(l.q, p.busy[i]);
    }
    forall i | 0 <= i < |p.done| ensures Own(r, p.done[i]) {
      assert p.done[i] == if i < |l.p.done| then l.p.done[i] else l.p.busy[k];
      assert Own(l.q, p.done[i]);
    }
  }

  lemma StartMatched(size: nat)
    requires 0 < size <= QUEUE_MAX && U16 % size == 0
    ensures Matched(Start(size), 0)
  {
    StartSafe(size);
    assert Start(size).p.free == Up(0, size);
  }

  lemma OrderlyPrefix(count: nat, turns: seq<Turn>, n: nat)
    requires Orderly(count, turns) && n + 1 == |turns|
    ensures Orderly(count, turns[..n])
  {
    forall i | 0 <= i < n && turns[..n][i].Polls? ensures PostedBy(turns[..n][..i]) == count {
      assert turns[..n][..i] == turns[..i];
    }
  }

  lemma {:induction false} SessionMatched(size: nat, count: nat, turns: seq<Turn>)
    requires count <= size && 0 < size <= QUEUE_MAX && U16 % size == 0 && Orderly(count, turns)
    ensures Matched(Session(size, turns), PostedBy(turns))
  {
    if turns == [] {
      StartMatched(size);
    } else {
      var n := |turns| - 1;
      OrderlyPrefix(count, turns, n);
      SessionMatched(size, count, turns[..n]);
      TurnMatched(Session(size, turns[..n]), turns[n], PostedBy(turns[..n]));
    }
  }

  /**
   * From the first post of init on, and whatever the device takes and completes when: each of the descriptors posted
   * so far is in flight, carrying the event buffer of its own number, so the buffer poll_char reads is the one the
   * device just filled.
   */
  lemma DescriptorKeepsItsBuffer(size: nat, count: nat, turns: seq<Turn>)
    requires count <= size && 0 < size <= QUEUE_MAX && U16 % size == 0 && Orderly(count, turns)
    ensures var l := Session(size, turns);
            && Matched(l, PostedBy(turns))
            && (l.q.usedIdx != l.q.lastUsed ==>
                  l.p.done != [] && l.p.done[0] == [Event(l.q)] && At(l.q.buf, Event(l.q)) == Event(l.q))
  {
    SessionMatched(size, count, turns);
    PollMatched(Session(size, turns), PostedBy(turns));
  }
}
