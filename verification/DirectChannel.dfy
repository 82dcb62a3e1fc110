/** The coordinator's local channel: a bounded buffer that drops the oldest payload, and the
    guard that bounds a node's sieve to its range. */
module DirectChannels {

  import opened Basics
  import opened ContiguousRanges
  import opened Relations

  datatype Payload = Payload(full: Batch, partials: Batch, batchIdx: nat)

  /** What one batch adds to the buffered payloads. */
  function Pushed(held: seq<Payload>, capacity: nat, p: Payload): (r: seq<Payload>)
    requires capacity > 0 && |held| <= capacity
    ensures |r| <= capacity
  {
    if |held| == capacity then held[1..] + [p] else held + [p]
  }

  ghost function PushedAll(capacity: nat, ps: seq<Payload>): (r: seq<Payload>)
    requires capacity > 0
    ensures |r| <= capacity
  {
    if |ps| == 0 then [] else Pushed(PushedAll(capacity, ps[..|ps| - 1]), capacity, ps[|ps| - 1])
  }

  /** An undrained channel holds exactly the newest payloads, as many as fit. */
  lemma {:induction false} HoldsNewest(capacity: nat, ps: seq<Payload>)
    requires capacity > 0
    ensures PushedAll(capacity, ps) == ps[|ps| - Min(|ps|, capacity)..]
  {
    if |ps| > 0 {
      HoldsNewest(capacity, ps[..|ps| - 1]);
    }
  }

  /** Position `i` of a ring of `capacity` slots that starts at `head`. */
  function Slot(head: nat, i: nat, capacity: nat): (k: nat)
    requires head < capacity && i <= capacity
    ensures k < capacity
  {
    if head + i < capacity then head + i else head + i - capacity
  }

  lemma NextSlot(head: nat, capacity: nat)
    requires head < capacity
    ensures (head + 1) % capacity == Slot(head, 1, capacity)
  {
    if head + 1 == capacity {
      assert capacity % capacity == 0;
    }
  }

  class DirectChannel {
    const capacity: nat
    const buffer: array<Payload>
    var head: nat
    var tail: nat
    var count: nat
    var stop: bool
    var rangeConsumed: nat
    var rangeLimit: nat
    var batchValues: nat

    ghost predicate Valid()
      reads this
    {
      && capacity > 0 && buffer.Length == capacity
      && head < capacity && tail < capacity && count <= capacity
      && tail == Slot(head, count, capacity)
    }

    /** The buffered payloads, oldest first. */
    ghost function Held(): (s: seq<Payload>)
      requires Valid()
      reads this, buffer
      ensures |s| == count
    {
      seq(count, i requires 0 <= i < count && Valid() reads this, buffer =>
        buffer[Slot(head, i, capacity)])
    }

    constructor (capacity: nat)
      requires capacity > 0
      ensures Valid() && fresh(buffer) && this.capacity == capacity && Held() == []
      ensures !stop && rangeLimit == 0 && rangeConsumed == 0 && batchValues == 1
    {
      this.capacity := capacity;
      buffer := new Payload[capacity](_ => Payload(CLEARED, CLEARED, 0));
      head, tail, count := 0, 0, 0;
      stop, rangeConsumed, rangeLimit, batchValues := false, 0, 0, 1;
    }

    /** Gives up the oldest payload. */
    method DropOldest()
      requires Valid() && count > 0
      modifies this`head, this`count
      ensures Valid() && Held() == old(Held())[1..] && count == old(count) - 1
    {
      NextSlot(head, capacity);
      ghost var before := Held();
      head := (head + 1) % capacity;
      count := count - 1;
      assert forall i :: 0 <= i < count ==> Held()[i] == before[i + 1];
    }

    method Enqueue(p: Payload)
      requires Valid() && count < capacity
      modifies this`tail, this`count, buffer
      ensures Valid() && Held() == old(Held()) + [p]
    {
      NextSlot(tail, capacity);
      ghost var before := Held();
      buffer[tail] := p;
      tail := (tail + 1) % capacity;
      count := count + 1;
      assert forall i :: 0 <= i < count - 1 ==> Held()[i] == before[i];
    }

    method OnBatchComplete(p: Payload, advanced: nat)
      requires Valid()
      modifies this`head, this`tail, this`count, this`rangeConsumed, buffer
      ensures Valid()
      ensures Held() == Pushed(old(Held()), capacity, p)
      ensures rangeConsumed
              == old(rangeConsumed) + if advanced > 0 then advanced else batchValues
    {
      if count == capacity {
        DropOldest();
      }
      Enqueue(p);
      rangeConsumed := rangeConsumed + if advanced > 0 then advanced else batchValues;
    }

    method TryPop() returns (ok: bool, p: Payload)
      requires Valid()
      modifies this`head, this`count
      ensures Valid()
      ensures ok == (|old(Held())| > 0)
      ensures ok ==> old(Held()) == [p] + Held()
      ensures !ok ==> Held() == old(Held())
    {
      if count == 0 {
        return false, buffer[0];
      }
      p := buffer[head];
      assert p == Held()[0];
      DropOldest();
      ok := true;
    }

    predicate ShouldStop()
      reads this
    {
      stop || (rangeLimit > 0 && rangeConsumed >= rangeLimit)
    }

    method SetRange(limit: nat, batch: nat)
      requires Valid()
      modifies this`rangeLimit, this`rangeConsumed, this`batchValues
      ensures rangeLimit == limit && rangeConsumed == 0
      ensures batchValues == if batch > 0 then batch else 1
      ensures Valid() && Held() == old(Held())
    {
      rangeLimit, rangeConsumed := limit, 0;
      batchValues := if batch > 0 then batch else 1;
    }

    method SignalStop()
      requires Valid()
      modifies this`stop
      ensures stop && Valid() && Held() == old(Held())
    {
      stop := true;
    }
  }

  // ---------------------------------------------------------------------------
  // A node bounded by the guard
  // ---------------------------------------------------------------------------

  /** How far a node gets that polls the guard before each step of `Q` and is told to stop at
      poll number `stopAt`: the limit rounded up to a step, or no bound for limit 0. */
  function Reach(limit: nat, Q: nat, stopAt: nat): nat
    requires Q > 0
  {
    if limit == 0 then stopAt * Q else Min(stopAt * Q, RoundUp(limit, Q))
  }

  lemma StepBeforeLimit(k: nat, limit: nat, Q: nat)
    requires Q > 0 && k * Q < limit
    ensures (k + 1) * Q <= RoundUp(limit, Q)
  {
    RoundUpBounds(limit, Q);
    if k + 1 > CeilDiv(limit, Q) {
      Scale(CeilDiv(limit, Q), k, Q);
    }
  }

  /** Sieves from `start` in steps of `Q` under the guard and returns the first index that was
      not sieved. */
  method SieveRange(channel: DirectChannel, start: nat, limit: nat, Q: nat, stopAt: nat, p: Payload)
    returns (end: nat)
    requires channel.Valid() && !channel.stop && Q > 0
    modifies channel, channel.buffer
    ensures channel.Valid()
    ensures end == start + Reach(limit, Q, stopAt)
    ensures channel.rangeConsumed == end - start
  {
    channel.SetRange(limit, Q);
    end := start;
    var polls := 0;
    while true
      invariant channel.Valid() && channel.rangeLimit == limit && channel.batchValues == Q
      invariant !channel.stop && polls <= stopAt
      invariant end == start + polls * Q && channel.rangeConsumed == polls * Q
      invariant limit > 0 ==> polls * Q <= RoundUp(limit, Q)
      decreases stopAt - polls
    {
      if polls == stopAt {
        channel.SignalStop();
      }
      if channel.ShouldStop() {
        break;
      }
      assert polls < stopAt;
      if limit > 0 {
        StepBeforeLimit(polls, limit, Q);
      }
      channel.OnBatchComplete(p, 0);
      end := end + Q;
      assert (polls + 1) * Q == polls * Q + Q;
      polls := polls + 1;
    }
    if limit > 0 && polls < stopAt {
      StoppedAtLimit(polls, limit, Q, stopAt);
    } else if limit == 0 {
      assert polls == stopAt;
    }
  }

  lemma StoppedAtLimit(polls: nat, limit: nat, Q: nat, stopAt: nat)
    requires Q > 0 && limit > 0 && polls < stopAt && limit <= polls * Q <= RoundUp(limit, Q)
    ensures Reach(limit, Q, stopAt) == polls * Q
  {
    RoundUpBounds(limit, Q);
    var r := CeilDiv(limit, Q);
    if polls < r {
      Scale(polls + 1, r, Q);
    } else if polls > r {
      Scale(r + 1, polls, Q);
    }
    Scale(polls, stopAt, Q);
  }

  // ---------------------------------------------------------------------------
  // The cluster
  // ---------------------------------------------------------------------------

  /** Index `a` is sieved by node `i` in its initial range, if node `i` is stopped from outside
      at poll `stopAt[i]`. */
  predicate SievedBy(r: ContiguousRange, Q: nat, stopAt: nat, a: nat)
    requires Q > 0
  {
    r.start <= a < r.start + Reach(r.count, Q, stopAt)
  }

  /** A node never leaves a range that is a nonempty multiple of the step. */
  lemma NodeStaysInRange(r: ContiguousRange, Q: nat, stopAt: nat, a: nat)
    requires Q > 0 && r.count > 0 && r.count % Q == 0
    ensures SievedBy(r, Q, stopAt, a) ==> InRange(r, a)
    ensures stopAt * Q >= r.count ==> (SievedBy(r, Q, stopAt, a) <==> InRange(r, a))
  {
    RoundUpMultiple(r.count, Q);
  }

  /** No two nodes sieve the same index, whenever each of them is stopped. */
  lemma NoSharedIndex(ranges: seq<ContiguousRange>, smCounts: seq<nat>, target: nat, H: nat, Q: nat,
                      stopAt: seq<nat>, i: nat, j: nat, a: nat)
    requires |smCounts| > 0 && 0 < H < WORD32 && Q > 0
    requires LaidOut(ranges, Counts(smCounts, target, H, Q), |smCounts|)
    requires |stopAt| == |ranges| && i < j < |ranges|
    ensures !(SievedBy(ranges[i], Q, stopAt[i], a) && SievedBy(ranges[j], Q, stopAt[j], a))
  {
    hide Counts, SievedBy, InRange;
    var counts := Counts(smCounts, target, H, Q);
    RangesAligned(smCounts, target, H, Q);
    NodeStaysInRange(ranges[i], Q, stopAt[i], a);
    NodeStaysInRange(ranges[j], Q, stopAt[j], a);
    RangesTile(ranges, counts, a);
  }

  /** Left to themselves the nodes sieve exactly the indices up to the total. */
  lemma AllIndicesSieved(ranges: seq<ContiguousRange>, smCounts: seq<nat>, target: nat, H: nat,
                         Q: nat, stopAt: seq<nat>, a: nat)
    requires |smCounts| > 0 && 0 < H < WORD32 && Q > 0
    requires LaidOut(ranges, Counts(smCounts, target, H, Q), |smCounts|)
    requires |stopAt| == |ranges|
    requires forall i :: 0 <= i < |ranges| ==> stopAt[i] * Q >= ranges[i].count
    ensures a < Sum(Counts(smCounts, target, H, Q), |smCounts|) <==>
            exists i :: 0 <= i < |ranges| && SievedBy(ranges[i], Q, stopAt[i], a)
  {
    hide Counts, SievedBy, InRange, Sum;
    var counts := Counts(smCounts, target, H, Q);
    RangesAligned(smCounts, target, H, Q);
    forall i | 0 <= i < |ranges|
      ensures SievedBy(ranges[i], Q, stopAt[i], a) <==> InRange(ranges[i], a)
    {
      NodeStaysInRange(ranges[i], Q, stopAt[i], a);
    }
    RangesTile(ranges, counts, a);
  }

  /** The limit 0 is no limit: the node runs on until it is told to stop. */
  lemma ZeroLimitIsUnbounded(Q: nat, stopAt: nat)
    requires Q > 0
    ensures Reach(0, Q, stopAt) == stopAt * Q >= stopAt
  {
    Scale(1, Q, stopAt);
    assert Q * stopAt == stopAt * Q;
  }
}
