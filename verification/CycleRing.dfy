/** The xHCI rings (drivers/usb/mod.rs): a cycle bit in each TRB says whose turn it is; nothing else is shared. */
module CycleRing {
  import opened Wrappers

  const RING_TRBS := 256
  const TRB_BYTES := 16

  /** A TRB: what it asks for, and its cycle bit. */
  datatype Trb = Trb(item: nat, cycle: bool)

  /**
   * A producer's ring of TRBs, the last one linking back to the first; where it writes next, and with which cycle bit.
   */
  datatype Ring = Ring(trbs: seq<Trb>, enqueue: nat, cycle: bool)

  /** Where a consumer reads next, and the cycle bit it takes for its own. */
  datatype Reader = Reader(at: nat, cycle: bool)

  const LINK := RING_TRBS - 1

  function Put(trbs: seq<Trb>, i: nat, t: Trb): (r: seq<Trb>)
    ensures |r| == |trbs| && forall j | 0 <= j < |trbs| :: r[j] == if j == i then t else trbs[j]
  {
    if i < |trbs| then trbs[i := t] else trbs
  }

  function Fresh(): Ring { Ring(seq(RING_TRBS, _ => Trb(0, false)), 0, true) }

  function Push(r: Ring, item: nat): Ring {
    var trbs := Put(r.trbs, r.enqueue, Trb(item, r.cycle));
    if r.enqueue + 1 == LINK then
      Ring(Put(trbs, LINK, Trb(0, r.cycle)), 0, !r.cycle)
    else
      Ring(trbs, r.enqueue + 1, r.cycle)
  }

  /** The controller's side: follow the link if it has been handed over, then take one TRB if there is one. */
  function FollowLink(r: Ring, c: Reader): Reader
    requires |r.trbs| == RING_TRBS
  {
    if c.at == LINK && r.trbs[LINK].cycle == c.cycle then Reader(0, !c.cycle) else c
  }

  function Fetch(r: Ring, c: Reader): (Option<nat>, Reader)
    requires |r.trbs| == RING_TRBS && c.at <= LINK
  {
    var f := FollowLink(r, c);
    if f.at < LINK && r.trbs[f.at].cycle == f.cycle then (Some(r.trbs[f.at].item), f.(at := f.at + 1)) else (None, f)
  }

  /** Where to resume after a failed transfer: an address whose low bit is the cycle bit. */
  function DequeueAfter(phys: nat, r: Ring): nat { phys + r.enqueue * TRB_BYTES + if r.cycle then 1 else 0 }

  /** How the controller reads such an address. */
  function ResumeAt(phys: nat, address: nat): Reader
    requires phys <= address
  {
    Reader((address - phys) / TRB_BYTES, address % 2 == 1)
  }

  // One invariant for every ring, linked or not.

  /**
   * Of a ring of `size` TRBs: those before the enqueue position hold the current lap's items, which start at number
   * `start` of everything ever pushed, and those from it on the lap before.
   */
  ghost predicate Holds(trbs: seq<Trb>, size: nat, enqueue: nat, cycle: bool, start: nat, pushed: seq<nat>) {
    && enqueue < size <= |trbs| && |pushed| == start + enqueue
    && (if start == 0 then cycle else size <= start)
    && forall i: nat | i < size :: TrbIs(trbs, size, enqueue, cycle, start, pushed, i)
  }

  ghost predicate TrbIs(trbs: seq<Trb>, size: nat, enqueue: nat, cycle: bool, start: nat, pushed: seq<nat>, i: nat)
    requires enqueue < size <= |trbs| && |pushed| == start + enqueue && i < size && (start == 0 || size <= start)
  {
    && (trbs[i].cycle == if i < enqueue then cycle else !cycle)
    && (i < enqueue ==> trbs[i].item == pushed[start + i])
    && (enqueue <= i && start > 0 ==> trbs[i].item == pushed[start - size + i])
  }

  /** The consumer is on the producer's lap behind it, or on the lap before, ahead of it. */
  ghost predicate Behind(c: Reader, size: nat, enqueue: nat, cycle: bool, start: nat, read: nat) {
    || (read == start + c.at && c.at <= enqueue && c.cycle == cycle)
    || (read + size == start + c.at && enqueue <= c.at <= size && c.cycle == !cycle && start > 0)
  }

  /** Writing at the enqueue position, on a ring whose next position is not past the last TRB. */
  lemma WriteHolds(trbs: seq<Trb>, size: nat, enqueue: nat, cycle: bool, start: nat, pushed: seq<nat>, item: nat)
    requires Holds(trbs, size, enqueue, cycle, start, pushed) && enqueue + 1 < size
    ensures Holds(Put(trbs, enqueue, Trb(item, cycle)), size, enqueue + 1, cycle, start, pushed + [item])
  {
    var trbs', next, pushed' := Put(trbs, enqueue, Trb(item, cycle)), enqueue + 1, pushed + [item];
    forall i: nat | i < size ensures TrbIs(trbs', size, next, cycle, start, pushed', i) {
      assert TrbIs(trbs, size, enqueue, cycle, start, pushed, i);
    }
  }

  /** Writing at the last position starts a lap, with the other cycle bit. */
  lemma WrapHolds(trbs: seq<Trb>, size: nat, enqueue: nat, cycle: bool, start: nat, pushed: seq<nat>, item: nat)
    requires Holds(trbs, size, enqueue, cycle, start, pushed) && enqueue + 1 == size
    ensures Holds(Put(trbs, enqueue, Trb(item, cycle)), size, 0, !cycle, start + size, pushed + [item])
  {
    var trbs', lap, pushed', other := Put(trbs, enqueue, Trb(item, cycle)), start + size, pushed + [item], !cycle;
    forall i: nat | i < size ensures TrbIs(trbs', size, 0, other, lap, pushed', i) {
      assert TrbIs(trbs, size, enqueue, cycle, start, pushed, i);
    }
  }

  /** The TRB a consumer looks at is its own exactly when something is left to read, and is then the next item. */
  lemma LookIs(trbs: seq<Trb>, size: nat, enqueue: nat, cycle: bool, start: nat, pushed: seq<nat>, c: Reader, read: nat)
    requires Holds(trbs, size, enqueue, cycle, start, pushed) && Behind(c, size, enqueue, cycle, start, read)
             && c.at < size
    ensures trbs[c.at].cycle == c.cycle <==> read < |pushed|
    ensures read < |pushed| ==> trbs[c.at].item == pushed[read] && (c.at + 1 <= enqueue || c.cycle == !cycle)
    ensures read == |pushed| ==> c.at == enqueue && c.cycle == cycle
  {
    assert TrbIs(trbs, size, enqueue, cycle, start, pushed, c.at);
  }

  // The command and transfer rings.

  /** A ring and everything pushed on it; the link carries the cycle bit of the lap before. */
  ghost predicate RingIs(r: Ring, start: nat, pushed: seq<nat>) {
    |r.trbs| == RING_TRBS && Holds(r.trbs, LINK, r.enqueue, r.cycle, start, pushed) && r.trbs[LINK].cycle == !r.cycle
  }

  ghost function NextStart(r: Ring, start: nat): nat { if r.enqueue + 1 == LINK then start + LINK else start }

  lemma PushIs(r: Ring, start: nat, pushed: seq<nat>, item: nat)
    requires RingIs(r, start, pushed)
    ensures RingIs(Push(r, item), NextStart(r, start), pushed + [item])
  {
    if r.enqueue + 1 == LINK {
      WrapHolds(r.trbs, LINK, r.enqueue, r.cycle, start, pushed, item);
      var trbs := Put(r.trbs, r.enqueue, Trb(item, r.cycle));
      LastIsApart(trbs, Trb(0, r.cycle), !r.cycle, start + LINK, pushed + [item]);
    } else {
      WriteHolds(r.trbs, LINK, r.enqueue, r.cycle, start, pushed, item);
    }
  }

  lemma LastIsApart(trbs: seq<Trb>, link: Trb, cycle: bool, start: nat, pushed: seq<nat>)
    requires |trbs| == RING_TRBS && Holds(trbs, LINK, 0, cycle, start, pushed)
    ensures Holds(Put(trbs, LINK, link), LINK, 0, cycle, start, pushed)
  {
    var trbs' := Put(trbs, LINK, link);
    forall i: nat | i < LINK ensures TrbIs(trbs', LINK, 0, cycle, start, pushed, i) {
      assert TrbIs(trbs, LINK, 0, cycle, start, pushed, i);
    }
  }

  /** A push keeps the consumer in step unless it completes a lap on a consumer still waiting at the link. */
  lemma PushBehind(r: Ring, start: nat, pushed: seq<nat>, item: nat, c: Reader, read: nat)
    requires RingIs(r, start, pushed) && Behind(c, LINK, r.enqueue, r.cycle, start, read) && |pushed| - read < LINK
    ensures var r' := Push(r, item);
            Behind(c, LINK, r'.enqueue, r'.cycle, NextStart(r, start), read)
            <==> !(c.at == LINK && r.enqueue + 1 == LINK)
  {
  }

  lemma FetchIs(r: Ring, start: nat, pushed: seq<nat>, c: Reader, read: nat)
    requires RingIs(r, start, pushed) && Behind(c, LINK, r.enqueue, r.cycle, start, read)
    ensures read <= |pushed| && c.at <= LINK
    ensures var (got, c') := Fetch(r, c);
            if read < |pushed| then got == Some(pushed[read]) && Behind(c', LINK, r.enqueue, r.cycle, start, read + 1)
            else got == None && c' == Reader(r.enqueue, r.cycle) && Behind(c', LINK, r.enqueue, r.cycle, start, read)
  {
    var f := FollowLink(r, c);
    assert f.at < LINK && Behind(f, LINK, r.enqueue, r.cycle, start, read);
    LookIs(r.trbs, LINK, r.enqueue, r.cycle, start, pushed, f, read);
  }

  /**
   * The bound is sharp: with RING_TRBS - 1 TRBs outstanding, a consumer that had not yet followed the link finds
   * nothing to read, though every one of them is still there.
   */
  lemma FullLapTrapsReader(r: Ring, start: nat, pushed: seq<nat>, item: nat, c: Reader, read: nat)
    requires RingIs(r, start, pushed) && Behind(c, LINK, r.enqueue, r.cycle, start, read)
    requires c.at == LINK && r.enqueue + 1 == LINK
    ensures |pushed + [item]| - read == RING_TRBS - 1
    ensures Fetch(Push(r, item), c) == (None, c)
  {
  }

  lemma FreshIs()
    ensures RingIs(Fresh(), 0, [])
  {
    forall i: nat | i < LINK ensures TrbIs(Fresh().trbs, LINK, 0, true, 0, [], i) {}
  }

  /** The address names the enqueue position and the producer's cycle bit, and the controller reads them back. */
  lemma ResumeIs(phys: nat, r: Ring)
    requires phys % TRB_BYTES == 0
    ensures ResumeAt(phys, DequeueAfter(phys, r)) == Reader(r.enqueue, r.cycle)
  {
    var bit := if r.cycle then 1 else 0;
    Position(r.enqueue, bit);
    LowBit(8 * (phys / TRB_BYTES) + 8 * r.enqueue, bit);
  }

  lemma Position(i: nat, bit: nat)
    requires bit < 2
    ensures (i * TRB_BYTES + bit) / TRB_BYTES == i
  {
  }

  lemma LowBit(half: nat, bit: nat)
    requires bit < 2
    ensures (2 * half + bit) % 2 == bit
  {
  }

  // Every run.

  datatype Event = Pushes(item: nat) | Fetches | Stalls(phys: nat)

  /**
   * The ring, everything pushed, and for each pushed TRB gone past, what the consumer got: nothing if a stall skipped
   * it.
   */
  datatype Bus = Bus(ring: Ring, pushed: seq<nat>, reader: Reader, log: seq<Option<nat>>)

  ghost predicate Ready(b: Bus) { |b.ring.trbs| == RING_TRBS && b.reader.at <= LINK && |b.log| <= |b.pushed| }

  /** The driver never lets RING_TRBS - 1 TRBs pile up; after a stall the consumer is sent past what was left. */
  ghost function Next(b: Bus, e: Event): Bus
    requires Ready(b)
  {
    match e
    case Pushes(item) =>
      if |b.pushed| + 1 - |b.log| < RING_TRBS - 1 then b.(ring := Push(b.ring, item), pushed := b.pushed + [item])
      else b
    case Fetches =>
      var (got, c) := Fetch(b.ring, b.reader);
      b.(reader := c, log := if got.Some? then b.log + [got] else b.log)
    case Stalls(phys) =>
      if phys % TRB_BYTES != 0 then b
      else b.(reader := ResumeAt(phys, DequeueAfter(phys, b.ring)), log := b.log + seq(|b.pushed| - |b.log|, _ => None))
  }

  ghost predicate InStep(b: Bus, start: nat) {
    && RingIs(b.ring, start, b.pushed) && Behind(b.reader, LINK, b.ring.enqueue, b.ring.cycle, start, |b.log|)
    && |b.pushed| - |b.log| < RING_TRBS - 1
    && forall i | 0 <= i < |b.log| :: Got(b, i)
  }

  /** What was got in place `i` is what was pushed there. */
  ghost predicate Got(b: Bus, i: nat)
    requires i < |b.log|
  {
    i < |b.pushed| && (b.log[i].Some? ==> b.log[i].value == b.pushed[i])
  }

  lemma StepKeeps(b: Bus, e: Event, start: nat) returns (start': nat)
    requires InStep(b, start)
    ensures Ready(b) && InStep(Next(b, e), start') && Ready(Next(b, e))
  {
    start' := start;
    FetchIs(b.ring, start, b.pushed, b.reader, |b.log|);
    var b' := Next(b, e);
    match e {
      case Pushes(item) =>
        if |b.pushed| + 1 - |b.log| < RING_TRBS - 1 {
          start' := NextStart(b.ring, start);
          PushIs(b.ring, start, b.pushed, item);
          PushBehind(b.ring, start, b.pushed, item, b.reader, |b.log|);
          forall i | 0 <= i < |b'.log| ensures Got(b', i) { assert Got(b, i); }
        }
      case Fetches =>
        forall i | 0 <= i < |b'.log| ensures Got(b', i) { if i < |b.log| { assert Got(b, i); } }
      case Stalls(phys) =>
        if phys % TRB_BYTES == 0 {
          ResumeIs(phys, b.ring);
          forall i | 0 <= i < |b'.log| ensures Got(b', i) { if i < |b.log| { assert Got(b, i); } }
        }
    }
  }

  ghost predicate Reachable(b: Bus, events: seq<Event>)
    decreases |events|
  {
    if events == [] then b == Bus(Fresh(), [], Reader(0, true), [])
    else exists a: Bus :: Ready(a) && Reachable(a, events[..|events| - 1]) && b == Next(a, events[|events| - 1])
  }

  /**
   * Across any number of wraps and stalls: the consumer gets exactly the pushed TRBs, in order, each once, none but
   * those a stall skipped missing; and it finds nothing exactly when it has caught up, at the enqueue position.
   */
  lemma {:induction false} ReadsWhatWasPushed(b: Bus, events: seq<Event>)
    requires Reachable(b, events)
    ensures Ready(b) && forall i | 0 <= i < |b.log| :: Got(b, i)
    ensures var (got, c) := Fetch(b.ring, b.reader);
            if |b.log| < |b.pushed| then got == Some(b.pushed[|b.log|])
            else got == None && c == Reader(b.ring.enqueue, b.ring.cycle)
  {
    var start := RunKeeps(b, events);
    FetchIs(b.ring, start, b.pushed, b.reader, |b.log|);
  }

  lemma {:induction false} RunKeeps(b: Bus, events: seq<Event>) returns (start: nat)
    requires Reachable(b, events)
    ensures InStep(b, start)
    decreases |events|
  {
    if events == [] {
      FreshIs();
      start := 0;
    } else {
      var a: Bus :| Ready(a) && Reachable(a, events[..|events| - 1]) && b == Next(a, events[|events| - 1]);
      var s := RunKeeps(a, events[..|events| - 1]);
      start := StepKeeps(a, events[|events| - 1], s);
    }
  }

  /** Without a stall, no pushed TRB gone past was missed. */
  lemma {:induction false} NothingIsMissed(b: Bus, events: seq<Event>)
    requires Reachable(b, events) && forall i | 0 <= i < |events| :: !events[i].Stalls?
    ensures forall i | 0 <= i < |b.log| :: b.log[i].Some?
    decreases |events|
  {
    if events != [] {
      var n := |events| - 1;
      var a: Bus :| Ready(a) && Reachable(a, events[..n]) && b == Next(a, events[n]);
      assert forall i | 0 <= i < n :: !events[..n][i].Stalls?;
      NothingIsMissed(a, events[..n]);
    }
  }

  // The event ring: written by the controller, read by the driver, and without a link.

  function After(c: Reader): Reader { if c.at + 1 == RING_TRBS then Reader(0, !c.cycle) else c.(at := c.at + 1) }

  /** The driver's reader, which wraps at once, is in step with the controller. */
  ghost predicate Watching(trbs: seq<Trb>, enqueue: nat, cycle: bool, start: nat, pushed: seq<nat>, c: Reader,
      read: nat) {
    && |trbs| == RING_TRBS && Holds(trbs, RING_TRBS, enqueue, cycle, start, pushed)
    && c.at < RING_TRBS && Behind(c, RING_TRBS, enqueue, cycle, start, read)
  }

  lemma WatchIs(trbs: seq<Trb>, enqueue: nat, cycle: bool, start: nat, pushed: seq<nat>, c: Reader, read: nat)
    requires Watching(trbs, enqueue, cycle, start, pushed, c, read)
    ensures read <= |pushed| && (trbs[c.at].cycle == c.cycle <==> read < |pushed|)
    ensures read < |pushed|
            ==> trbs[c.at].item == pushed[read] && Watching(trbs, enqueue, cycle, start, pushed, After(c), read + 1)
    ensures read == |pushed| ==> c == Reader(enqueue, cycle)
  {
    LookIs(trbs, RING_TRBS, enqueue, cycle, start, pushed, c, read);
  }

  /** The controller may write up to a whole ring ahead of the driver. */
  lemma ControllerWrites(trbs: seq<Trb>, enqueue: nat, cycle: bool, start: nat, pushed: seq<nat>, c: Reader, read: nat,
      item: nat)
    requires Watching(trbs, enqueue, cycle, start, pushed, c, read) && |pushed| - read < RING_TRBS
    ensures var wrap := enqueue + 1 == RING_TRBS;
            Watching(Put(trbs, enqueue, Trb(item, cycle)),
                     if wrap then 0 else enqueue + 1, if wrap then !cycle else cycle,
                     if wrap then start + RING_TRBS else start, pushed + [item], c, read)
  {
    if enqueue + 1 == RING_TRBS {
      WrapHolds(trbs, RING_TRBS, enqueue, cycle, start, pushed, item);
    } else {
      WriteHolds(trbs, RING_TRBS, enqueue, cycle, start, pushed, item);
    }
  }
}
