/** The single-producer single-consumer ring, one atomic access per step.

    Each side knows its own index exactly but may load any value of the other side's index
    between the last one it saw and the current one. */
module SpscRing {

  /** Where the producer is inside `tryPush`. */
  datatype Producer<T> =
    | PIdle
    | PChecked(item: T, t: nat)    // the ring was not full: about to write slot `t`
    | PWritten(item: T, t: nat)    // slot written: about to store the tail

  /** Where the consumer is inside `tryPop` or `popBatch`. */
  datatype Consumer<T> =
    | CIdle
    | CChecked(h: nat)                                      // about to read slot `h`
    | CRead(h: nat, item: T)                                // about to store the head
    | CBatch(h: nat, t: nat, out: seq<T>, maxN: nat)        // inside the batch loop

  datatype State<T> = State(
    n: nat,
    slots: seq<T>,
    head: nat,
    tail: nat,
    producer: Producer<T>,
    consumer: Consumer<T>,
    // history: what was pushed and popped so far, and how far each side has seen the other
    pushed: seq<T>,
    popped: seq<T>,
    seenPops: nat,
    seenPushes: nat)

  datatype Event<T> =
    | PushLoad(item: T, pops: nat)     // load the head as it was after `pops` pops
    | PushWrite
    | PushStore
    | PopLoad(pushes: nat)             // load the tail as it was after `pushes` pushes
    | PopRead
    | PopStore
    | BatchLoad(pushes: nat, maxN: nat)
    | BatchRead
    | BatchStore

  /** May the event happen now?  Loads may be stale, never from before the last load. */
  predicate Enabled<T>(s: State<T>, e: Event<T>) {
    match e
    case PushLoad(_, pops) => s.producer.PIdle? && s.seenPops <= pops <= |s.popped|
    case PushWrite => s.producer.PChecked?
    case PushStore => s.producer.PWritten?
    case PopLoad(pushes) => s.consumer.CIdle? && s.seenPushes <= pushes <= |s.pushed|
    case PopRead => s.consumer.CChecked?
    case PopStore => s.consumer.CRead?
    case BatchLoad(pushes, _) => s.consumer.CIdle? && s.seenPushes <= pushes <= |s.pushed|
    case BatchRead => s.consumer.CBatch? && BatchGoesOn(s.consumer)
    case BatchStore => s.consumer.CBatch? && !BatchGoesOn(s.consumer)
  }

  predicate BatchGoesOn<T>(c: Consumer<T>)
    requires c.CBatch?
  {
    |c.out| < c.maxN && c.h != c.t
  }

  /** The slot indices both sides hold are slots. */
  predicate InBounds<T>(s: State<T>) {
    && s.n > 0
    && (s.producer.PChecked? ==> s.producer.t < |s.slots|)
    && (s.consumer.CChecked? ==> s.consumer.h < |s.slots|)
    && (s.consumer.CBatch? ==> s.consumer.h < |s.slots|)
  }

  /** One atomic access.  An index that has seen `k` operations is `k` modulo the capacity. */
  function Next<T>(s: State<T>, e: Event<T>): (s': State<T>)
    requires InBounds(s) && Enabled(s, e)
  {
    match e
    case PushLoad(item, pops) =>
      var loaded := pops % s.n;
      if (s.tail + 1) % s.n == loaded then s.(seenPops := pops)
      else s.(seenPops := pops, producer := PChecked(item, s.tail))
    case PushWrite =>
      s.(slots := s.slots[s.producer.t := s.producer.item],
         producer := PWritten(s.producer.item, s.producer.t))
    case PushStore =>
      s.(tail := (s.producer.t + 1) % s.n, producer := PIdle,
         pushed := s.pushed + [s.producer.item])
    case PopLoad(pushes) =>
      var loaded := pushes % s.n;
      if s.head == loaded then s.(seenPushes := pushes)
      else s.(seenPushes := pushes, consumer := CChecked(s.head))
    case PopRead =>
      s.(consumer := CRead(s.consumer.h, s.slots[s.consumer.h]))
    case PopStore =>
      s.(head := (s.consumer.h + 1) % s.n, consumer := CIdle,
         popped := s.popped + [s.consumer.item])
    case BatchLoad(pushes, maxN) =>
      s.(seenPushes := pushes, consumer := CBatch(s.head, pushes % s.n, [], maxN))
    case BatchRead =>
      var c := s.consumer;
      s.(consumer := CBatch((c.h + 1) % s.n, c.t, c.out + [s.slots[c.h]], c.maxN))
    case BatchStore =>
      var c := s.consumer;
      if |c.out| > 0 then s.(head := c.h, consumer := CIdle, popped := s.popped + c.out)
      else s.(consumer := CIdle)
  }

  predicate Initial<T>(s: State<T>) {
    && s.n > 0 && |s.slots| == s.n
    && s.head == 0 && s.tail == 0 && s.producer == PIdle && s.consumer == CIdle
    && s.pushed == [] && s.popped == [] && s.seenPops == 0 && s.seenPushes == 0
  }

  // ---------------------------------------------------------------------------
  // Invariant
  // ---------------------------------------------------------------------------

  /** Items the consumer has taken out of the slots but not yet released. */
  function Taken<T>(c: Consumer<T>): seq<T> {
    match c
    case CRead(_, item) => [item]
    case CBatch(_, _, out, _) => out
    case _ => []
  }

  ghost predicate Counts<T>(s: State<T>) {
    && s.n > 0 && |s.slots| == s.n
    && s.seenPops <= |s.popped| <= s.seenPushes <= |s.pushed| < s.seenPops + s.n
    && s.tail == |s.pushed| % s.n
    && s.head == |s.popped| % s.n
  }

  /** Everything pushed and not yet popped is in its slot. */
  ghost predicate Stored<T>(s: State<T>)
    requires s.n > 0 && |s.slots| == s.n
  {
    forall k :: |s.popped| <= k < |s.pushed| ==> s.slots[k % s.n] == s.pushed[k]
  }

  ghost predicate ProducerOk<T>(s: State<T>)
    requires s.n > 0 && |s.slots| == s.n
  {
    match s.producer
    case PIdle => true
    case PChecked(_, t) => t == |s.pushed| % s.n && |s.pushed| + 1 < s.seenPops + s.n
    case PWritten(item, t) =>
      t == |s.pushed| % s.n && |s.pushed| + 1 < s.seenPops + s.n && s.slots[t] == item
  }

  ghost predicate ConsumerOk<T>(s: State<T>)
    requires s.n > 0 && |s.popped| <= s.seenPushes <= |s.pushed|
  {
    var taken := Taken(s.consumer);
    && |s.popped| + |taken| <= s.seenPushes
    && taken == s.pushed[|s.popped|..|s.popped| + |taken|]
    && match s.consumer
       case CIdle => true
       case CChecked(h) => h == |s.popped| % s.n && |s.popped| < s.seenPushes
       case CRead(h, _) => h == |s.popped| % s.n
       case CBatch(h, t, out, maxN) =>
         h == (|s.popped| + |out|) % s.n && t == s.seenPushes % s.n && |out| <= maxN
  }

  ghost predicate Inv<T>(s: State<T>) {
    && Counts(s)
    && Stored(s)
    && ProducerOk(s)
    && ConsumerOk(s)
    && s.popped <= s.pushed
  }

  // ---------------------------------------------------------------------------
  // Ring arithmetic
  // ---------------------------------------------------------------------------

  lemma SmallMultiple(n: int, q: int)
    requires n > 0 && -n < q * n < n
    ensures q == 0
  {
    assert q >= 1 ==> q * n >= n;
    assert q <= -1 ==> q * n <= -n;
  }

  /** Indices closer together than the capacity are different slots. */
  lemma SameSlot(a: nat, b: nat, n: nat)
    requires n > 0 && a % n == b % n && a - n < b < a + n
    ensures a == b
  {
    var q := a / n - b / n;
    assert a == (a / n) * n + a % n && b == (b / n) * n + b % n;
    assert a - b == q * n;
    SmallMultiple(n, q);
  }

  /** Advancing an index by one is advancing the count by one. */
  lemma NextSlot(a: nat, n: nat)
    requires n > 0
    ensures (a % n + 1) % n == (a + 1) % n
  {
    if a % n + 1 == n {
      assert a + 1 == (a / n + 1) * n;
      ModOfMultiple(a / n + 1, n);
      assert n % n == 0 by { ModOfMultiple(1, n); }
    } else {
      assert a + 1 == (a / n) * n + (a % n + 1);
      ModUnique(a + 1, a / n, a % n + 1, n);
      ModUnique(a % n + 1, 0, a % n + 1, n);
    }
  }

  lemma ModUnique(m: nat, q: nat, r: nat, n: nat)
    requires n > 0 && r < n && m == q * n + r
    ensures m % n == r
  {
    assert m == (m / n) * n + m % n;
    assert (m / n - q) * n == r - m % n;
    SmallMultiple(n, m / n - q);
  }

  lemma ModOfMultiple(q: nat, n: nat)
    requires n > 0
    ensures (q * n) % n == 0
  {
    ModUnique(q * n, q, 0, n);
  }

  /** The full test is exact for the head value that was loaded. */
  lemma FullTest(pushes: nat, pops: nat, n: nat)
    requires n > 0 && pops <= pushes < pops + n
    ensures (pushes % n + 1) % n == pops % n <==> pushes + 1 == pops + n
  {
    NextSlot(pushes, n);
    if (pushes + 1) % n == pops % n {
      if pushes + 1 < pops + n {
        SameSlot(pushes + 1, pops, n);
      }
    }
    if pushes + 1 == pops + n {
      assert pushes + 1 == (pops / n + 1) * n + pops % n;
      ModUnique(pushes + 1, pops / n + 1, pops % n, n);
    }
  }

  // ---------------------------------------------------------------------------
  // Every step keeps the invariant
  // ---------------------------------------------------------------------------

  lemma PushLoadKeeps<T>(s: State<T>, item: T, pops: nat)
    requires Inv(s) && Enabled(s, PushLoad(item, pops))
    ensures Inv(Next(s, PushLoad(item, pops)))
  {
    var s' := Next(s, PushLoad(item, pops));
    assert Counts(s') && ConsumerOk(s');
    assert Stored(s') by {
      assert s'.slots == s.slots && s'.pushed == s.pushed && s'.popped == s.popped;
    }
    assert ProducerOk(s') by {
      FullTest(|s.pushed|, pops, s.n);
    }
  }

  lemma PushWriteKeeps<T>(s: State<T>)
    requires Inv(s) && Enabled(s, PushWrite)
    ensures Inv(Next(s, PushWrite))
  {
    var s' := Next(s, PushWrite);
    forall k | |s.popped| <= k < |s.pushed| ensures s'.slots[k % s.n] == s.pushed[k] {
      if k % s.n == |s.pushed| % s.n {
        SameSlot(k, |s.pushed|, s.n);
      }
    }
  }

  lemma PushStoreKeeps<T>(s: State<T>)
    requires Inv(s) && Enabled(s, PushStore)
    ensures Inv(Next(s, PushStore))
  {
    NextSlot(|s.pushed|, s.n);
    var s' := Next(s, PushStore);
    var taken := Taken(s.consumer);
    assert s'.pushed[|s.popped|..|s.popped| + |taken|] == s.pushed[|s.popped|..|s.popped| + |taken|];
  }

  lemma PopLoadKeeps<T>(s: State<T>, pushes: nat)
    requires Inv(s) && Enabled(s, PopLoad(pushes))
    ensures Inv(Next(s, PopLoad(pushes)))
  {
    if |s.popped| % s.n != pushes % s.n {
      assert |s.popped| != pushes;
    }
  }

  lemma PopReadKeeps<T>(s: State<T>)
    requires Inv(s) && Enabled(s, PopRead)
    ensures Inv(Next(s, PopRead))
  {
    var c := |s.popped|;
    assert s.slots[c % s.n] == s.pushed[c];
    assert s.pushed[c..c + 1] == [s.pushed[c]];
  }

  lemma PopStoreKeeps<T>(s: State<T>)
    requires Inv(s) && Enabled(s, PopStore)
    ensures Inv(Next(s, PopStore))
  {
    NextSlot(|s.popped|, s.n);
    var c := |s.popped|;
    assert [s.consumer.item] == s.pushed[c..c + 1];
    assert s.popped + [s.consumer.item] == s.pushed[..c + 1];
  }

  lemma BatchReadKeeps<T>(s: State<T>)
    requires Inv(s) && Enabled(s, BatchRead)
    ensures Inv(Next(s, BatchRead))
  {
    var b := s.consumer;
    var c := |s.popped| + |b.out|;
    NextSlot(c, s.n);
    assert c < s.seenPushes;
    assert s.slots[c % s.n] == s.pushed[c];
    assert b.out + [s.pushed[c]] == s.pushed[|s.popped|..c + 1];
  }

  lemma BatchStoreKeeps<T>(s: State<T>)
    requires Inv(s) && Enabled(s, BatchStore)
    ensures Inv(Next(s, BatchStore))
  {
    var b := s.consumer;
    var c := |s.popped| + |b.out|;
    assert s.popped + b.out == s.pushed[..c];
  }

  lemma StepKeeps<T>(s: State<T>, e: Event<T>)
    requires Inv(s) && Enabled(s, e)
    ensures Inv(Next(s, e))
  {
    match e
    case PushLoad(item, pops) => PushLoadKeeps(s, item, pops);
    case PushWrite => PushWriteKeeps(s);
    case PushStore => PushStoreKeeps(s);
    case PopLoad(pushes) => PopLoadKeeps(s, pushes);
    case PopRead => PopReadKeeps(s);
    case PopStore => PopStoreKeeps(s);
    case BatchLoad(pushes, maxN) =>
    case BatchRead => BatchReadKeeps(s);
    case BatchStore => BatchStoreKeeps(s);
  }

  // ---------------------------------------------------------------------------
  // Whole runs
  // ---------------------------------------------------------------------------

  /** A run: a start state and, for every event, the state after it. */
  ghost predicate Run<T>(states: seq<State<T>>, events: seq<Event<T>>) {
    && |states| == |events| + 1
    && Initial(states[0])
    && forall i :: 0 <= i < |events| ==> Moves(states[i], events[i], states[i + 1])
  }

  ghost predicate Moves<T>(s: State<T>, e: Event<T>, s': State<T>) {
    InBounds(s) && Enabled(s, e) && s' == Next(s, e)
  }

  /** Every access of a run stays inside the slots. */
  lemma {:induction false} RunKeeps<T>(states: seq<State<T>>, events: seq<Event<T>>, i: nat)
    requires Run(states, events) && i < |states|
    ensures Inv(states[i]) && InBounds(states[i])
  {
    if i > 0 {
      RunKeeps(states, events, i - 1);
      assert Moves(states[i - 1], events[i - 1], states[i]);
      StepKeeps(states[i - 1], events[i - 1]);
    }
  }

  /** In every interleaving, at every moment: what was popped is a prefix of what was pushed,
      at most `n - 1` items are held, and the slot the producer is about to write is none of
      those the consumer may still read. */
  lemma RingIsFifo<T>(states: seq<State<T>>, events: seq<Event<T>>, i: nat)
    requires Run(states, events) && i < |states|
    ensures states[i].popped + Taken(states[i].consumer) <= states[i].pushed
    ensures |states[i].pushed| - |states[i].popped| <= states[i].n - 1
    ensures states[i].producer.PChecked? ==>
              forall k :: |states[i].popped| <= k < |states[i].pushed| ==>
                k % states[i].n != states[i].producer.t
  {
    RunKeeps(states, events, i);
    var s := states[i];
    var taken := Taken(s.consumer);
    assert s.popped + taken == s.pushed[..|s.popped| + |taken|];
    if s.producer.PChecked? {
      forall k | |s.popped| <= k < |s.pushed| ensures k % s.n != s.producer.t {
        if k % s.n == s.producer.t {
          SameSlot(k, |s.pushed|, s.n);
        }
      }
    }
  }

  /** A push is refused only when `n - 1` items are unreleased as far as the producer could
      see, and with an up-to-date load it is refused exactly when the ring is full. */
  lemma RefusedMeansFull<T>(s: State<T>, item: T, pops: nat)
    requires Inv(s) && Enabled(s, PushLoad(item, pops))
    ensures Next(s, PushLoad(item, pops)).producer.PIdle? <==> |s.pushed| - pops == s.n - 1
  {
    FullTest(|s.pushed|, pops, s.n);
  }

  /** A pop finds the ring empty exactly when everything the consumer could see is popped. */
  lemma EmptyMeansDrained<T>(s: State<T>, pushes: nat)
    requires Inv(s) && Enabled(s, PopLoad(pushes))
    ensures Next(s, PopLoad(pushes)).consumer.CIdle? <==> pushes == |s.popped|
  {
    if |s.popped| % s.n == pushes % s.n {
      SameSlot(|s.popped|, pushes, s.n);
    }
  }

  /** A batch pop delivers everything it saw, or as much as it was asked for. */
  lemma BatchTakesAll<T>(s: State<T>)
    requires Inv(s) && Enabled(s, BatchStore)
    ensures var out := s.consumer.out;
            |out| == s.consumer.maxN || |s.popped| + |out| == s.seenPushes
    ensures Next(s, BatchStore).popped == s.popped + s.consumer.out
  {
    var b := s.consumer;
    if |b.out| != b.maxN {
      SameSlot(s.seenPushes, |s.popped| + |b.out|, s.n);
    }
  }
}
