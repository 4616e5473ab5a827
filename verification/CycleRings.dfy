/** The rings as the driver keeps them: TRBs written in place, with cells for position and cycle. */
module CycleRings {
  import opened CycleRing

  class TransferRing {
    const trbs: array<Trb>
    const phys: nat
    var enqueue: nat
    var cycle: bool

    ghost function Now(): Ring
      reads this, trbs
    {
      Ring(trbs[..], enqueue, cycle)
    }

    constructor (phys: nat)
      ensures Now() == Fresh() && this.phys == phys && fresh(trbs) && RingIs(Now(), 0, [])
    {
      trbs := new Trb[RING_TRBS](_ => Trb(0, false));
      this.phys := phys;
      enqueue, cycle := 0, true;
      new;
      FreshIs();
      assert trbs[..] == Fresh().trbs;
    }

    /** Writes one TRB at the enqueue position; its address. */
    method PushTrb(item: nat, ghost start: nat, ghost pushed: seq<nat>) returns (address: nat)
      requires RingIs(Now(), start, pushed)
      modifies this, trbs
      ensures Now() == Push(old(Now()), item) && RingIs(Now(), NextStart(old(Now()), start), pushed + [item])
      ensures address == phys + old(enqueue) * TRB_BYTES && old(enqueue) < LINK
    {
      PushIs(Now(), start, pushed, item);
      var i := enqueue;
      address := phys + i * TRB_BYTES;
      trbs[i] := Trb(item, cycle);
      if i + 1 == RING_TRBS - 1 {
        trbs[RING_TRBS - 1] := Trb(0, cycle);
        enqueue := 0;
        cycle := !cycle;
      } else {
        enqueue := i + 1;
      }
      assert Now() == Push(old(Now()), item);
    }
  }

  class EventRing {
    const events: array<Trb>
    var dequeue: nat
    var cycle: bool

    /** A zeroed ring, on which the controller has written nothing. */
    constructor ()
      ensures fresh(events) && Watching(events[..], 0, true, 0, [], Reader(dequeue, cycle), 0)
    {
      events := new Trb[RING_TRBS](_ => Trb(0, false));
      dequeue, cycle := 0, true;
      new;
      forall i: nat | i < RING_TRBS ensures TrbIs(events[..], RING_TRBS, 0, true, 0, [], i) {}
    }

    /** Handles events until it meets one that is not the driver's yet: all those written, oldest first. */
    method ProcessEvents(ghost enqueue: nat, ghost theirs: bool, ghost start: nat, ghost pushed: seq<nat>,
        ghost read: nat)
      returns (handled: seq<nat>)
      requires Watching(events[..], enqueue, theirs, start, pushed, Reader(dequeue, cycle), read)
      modifies this
      ensures read <= |pushed| && handled == pushed[read..]
      ensures dequeue == enqueue && cycle == theirs
    {
      handled := [];
      ghost var n := read;
      WatchIs(events[..], enqueue, theirs, start, pushed, Reader(dequeue, cycle), n);
      while true
        invariant read <= n <= |pushed| && handled == pushed[read..n]
        invariant Watching(events[..], enqueue, theirs, start, pushed, Reader(dequeue, cycle), n)
        decreases |pushed| - n
      {
        WatchIs(events[..], enqueue, theirs, start, pushed, Reader(dequeue, cycle), n);
        var i := dequeue;
        var event := events[i];
        if event.cycle != cycle { break; }
        if i + 1 == RING_TRBS {
          dequeue := 0;
          cycle := !cycle;
        } else {
          dequeue := i + 1;
        }
        handled := handled + [event.item];
        n := n + 1;
      }
    }
  }
}
