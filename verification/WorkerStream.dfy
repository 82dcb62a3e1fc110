/** A worker's relations end to end: through the ring, coalesced, encoded, framed, sent in
    arbitrary pieces, and decoded by the coordinator. */
module WorkerStream {

  import opened Basics
  import opened Bytes
  import opened ByteCodec
  import opened Relations
  import opened BatchCodec
  import opened BatchMerge
  import Framing
  import SpscRing

  /** What the sieve thread pushes per batch. */
  datatype Slot = Slot(full: Batch, partials: Batch)

  const INCREMENTAL_BATCH: byte := 0x22

  /** An empty batch may lack its offset array. */
  ghost predicate Usable(b: Batch) {
    b.numRelations > 0 ==> b.Valid()
  }

  ghost predicate AllUsable(batches: seq<Batch>) {
    forall i :: 0 <= i < |batches| ==> Usable(batches[i])
  }

  ghost predicate SlotsOk(slots: seq<Slot>) {
    forall i :: 0 <= i < |slots| ==> Usable(slots[i].full) && Usable(slots[i].partials)
  }

  /** The relations of a batch. */
  ghost function Content(b: Batch): seq<Relation>
    requires Usable(b)
  {
    if b.numRelations == 0 then [] else Items(b, b.numRelations)
  }

  function Fulls(slots: seq<Slot>): (r: seq<Batch>)
    ensures |r| == |slots|
  {
    seq(|slots|, i requires 0 <= i < |slots| => slots[i].full)
  }

  function Partials(slots: seq<Slot>): (r: seq<Batch>)
    ensures |r| == |slots|
  {
    seq(|slots|, i requires 0 <= i < |slots| => slots[i].partials)
  }

  function Sizes(batches: seq<Batch>): (r: seq<nat>)
    ensures |r| == |batches|
  {
    seq(|batches|, i requires 0 <= i < |batches| => batches[i].numRelations)
  }

  /** All relations of the batches, in order. */
  ghost function AllOf(batches: seq<Batch>): seq<Relation>
    requires AllUsable(batches)
  {
    if |batches| == 0 then []
    else
      var n := |batches| - 1;
      AllOf(batches[..n]) + Content(batches[n])
  }

  lemma {:induction false} AllOfConcat(a: seq<Batch>, b: seq<Batch>)
    requires AllUsable(a) && AllUsable(b)
    ensures AllUsable(a + b)
    ensures AllOf(a + b) == AllOf(a) + AllOf(b)
    decreases |b|
  {
    hide Content, Usable;
    if |b| == 0 {
      assert a + b == a;
    } else {
      var n := |b| - 1;
      assert (a + b)[..|a + b| - 1] == a + b[..n] && (a + b)[|a + b| - 1] == b[n];
      AllOfConcat(a, b[..n]);
    }
  }

  /** The merge of the first `k` inputs holds the relations of these inputs. */
  lemma {:induction false} AllItemsAreAllOf(batches: seq<Batch>, k: nat)
    requires AllUsable(batches) && k <= |batches|
    ensures Mergeable(batches, Sizes(batches))
    ensures AllItems(batches, Sizes(batches), k) == AllOf(batches[..k])
  {
    hide Items, Batch.Covers;
    if k > 0 {
      AllItemsAreAllOf(batches, k - 1);
      assert batches[..k][..k - 1] == batches[..k - 1];
    }
  }

  // ---------------------------------------------------------------------------
  // One message
  // ---------------------------------------------------------------------------

  /** The merged batches of one drained group. */
  datatype Pair = Pair(full: Batch, partials: Batch)

  ghost predicate Coalesces(p: Pair, group: seq<Slot>)
    requires SlotsOk(group)
  {
    && Mergeable(Fulls(group), Sizes(Fulls(group)))
    && Mergeable(Partials(group), Sizes(Partials(group)))
    && Merged(p.full, Fulls(group), Sizes(Fulls(group)))
    && Merged(p.partials, Partials(group), Sizes(Partials(group)))
    && Sendable(p.full, p.full.numRelations) && Sendable(p.partials, p.partials.numRelations)
  }

  ghost function MessageOf(p: Pair): Framing.Message
    requires Sendable(p.full, p.full.numRelations) && Sendable(p.partials, p.partials.numRelations)
  {
    Framing.Message(INCREMENTAL_BATCH,
      EncodeIncremental(p.full, p.full.numRelations, p.partials, p.partials.numRelations))
  }

  /** Relations of a decoded batch. */
  ghost function Contents(r: Read<Batch>): seq<Relation> {
    if r.Got? && r.value.numRelations > 0 && r.value.Valid()
    then Items(r.value, r.value.numRelations) else []
  }

  ghost function HeardFull(m: Framing.Message): seq<Relation> {
    var d := DecodeIncremental(m.payload);
    if d.Accepted? then Contents(d.full) else []
  }

  ghost function HeardPartials(m: Framing.Message): seq<Relation> {
    var d := DecodeIncremental(m.payload);
    if d.Accepted? then Contents(d.partial) else []
  }

  lemma ContentsOfHeld(r: Read<Batch>, list: seq<Relation>)
    requires Holds(r, list)
    ensures Contents(r) == list
  {
  }

  /** The coordinator hears exactly the relations of the group. */
  lemma MessageHeard(p: Pair, group: seq<Slot>)
    requires SlotsOk(group) && Coalesces(p, group)
    ensures HeardFull(MessageOf(p)) == AllOf(Fulls(group))
    ensures HeardPartials(MessageOf(p)) == AllOf(Partials(group))
  {
    hide Encode, Decode, Merged, Holds, DecodeIncremental, EncodeIncremental, Sendable, Contents,
      AllOf, AllItems;
    var f, q := Fulls(group), Partials(group);
    AllItemsAreAllOf(f, |f|);
    AllItemsAreAllOf(q, |q|);
    assert f[..|f|] == f && q[..|q|] == q;
    CoalescedIsConcatenation(p.full, f, Sizes(f), p.partials, q, Sizes(q));
    var d := DecodeIncremental(MessageOf(p).payload);
    ContentsOfHeld(d.full, AllOf(f));
    ContentsOfHeld(d.partial, AllOf(q));
  }

  // ---------------------------------------------------------------------------
  // All messages
  // ---------------------------------------------------------------------------

  ghost predicate AllCoalesce(pairs: seq<Pair>, groups: seq<seq<Slot>>) {
    && |pairs| == |groups|
    && forall k :: 0 <= k < |groups| ==> SlotsOk(groups[k]) && Coalesces(pairs[k], groups[k])
  }

  ghost function Messages(pairs: seq<Pair>, groups: seq<seq<Slot>>): (m: seq<Framing.Message>)
    requires AllCoalesce(pairs, groups)
    ensures |m| == |pairs|
  {
    seq(|pairs|, k requires 0 <= k < |pairs| => MessageOf(pairs[k]))
  }

  function Flat(groups: seq<seq<Slot>>): seq<Slot> {
    if |groups| == 0 then [] else Flat(groups[..|groups| - 1]) + groups[|groups| - 1]
  }

  ghost function AllHeardFull(msgs: seq<Framing.Message>): seq<Relation> {
    if |msgs| == 0 then []
    else AllHeardFull(msgs[..|msgs| - 1]) + HeardFull(msgs[|msgs| - 1])
  }

  ghost function AllHeardPartials(msgs: seq<Framing.Message>): seq<Relation> {
    if |msgs| == 0 then []
    else AllHeardPartials(msgs[..|msgs| - 1]) + HeardPartials(msgs[|msgs| - 1])
  }

  lemma {:induction false} MessagesHeard(pairs: seq<Pair>, groups: seq<seq<Slot>>)
    requires AllCoalesce(pairs, groups)
    ensures SlotsOk(Flat(groups))
    ensures AllHeardFull(Messages(pairs, groups)) == AllOf(Fulls(Flat(groups)))
    ensures AllHeardPartials(Messages(pairs, groups)) == AllOf(Partials(Flat(groups)))
    decreases |groups|
  {
    hide Coalesces, HeardFull, HeardPartials, MessageOf, AllOf, Batch.Covers;
    if |groups| == 0 {
      assert Fulls([]) == [] && Partials([]) == [] && AllOf([]) == [] by { NoneOf(); }
    } else {
      var n := |groups| - 1;
      var last, before := groups[n], groups[..n];
      MessagesHeard(pairs[..n], before);
      assert Messages(pairs, groups)[..n] == Messages(pairs[..n], before);
      MessageHeard(pairs[n], last);
      assert Fulls(Flat(before) + last) == Fulls(Flat(before)) + Fulls(last);
      assert Partials(Flat(before) + last) == Partials(Flat(before)) + Partials(last);
      AllOfConcat(Fulls(Flat(before)), Fulls(last));
      AllOfConcat(Partials(Flat(before)), Partials(last));
    }
  }

  lemma NoneOf()
    ensures AllOf([]) == []
  {
  }

  /** What the coordinator receives of these messages in these calls. */
  ghost function Received(msgs: seq<Framing.Message>, seqNo: nat, calls: seq<seq<Framing.Read>>)
    : (seq<Framing.Message>, Framing.Channel)
  {
    Framing.ReceiveAll(Framing.Channel([], Framing.SentBytes(msgs, seqNo)), calls)
  }

  /** Once the wire is drained, the coordinator has received exactly the messages of the groups if
      and only if none of them is above the receiver's cap.  Then what it has decoded is, in order
      and without loss or repetition, the relations of the slots taken from the ring, which are
      the first ones that were pushed into it. */
  lemma RelationsArriveInOrder(
      states: seq<SpscRing.State<Slot>>, events: seq<SpscRing.Event<Slot>>, i: nat,
      groups: seq<seq<Slot>>, pairs: seq<Pair>, seqNo: nat, calls: seq<seq<Framing.Read>>)
    requires SpscRing.Run(states, events) && i < |states|
    requires states[i].popped == Flat(groups)
    requires AllCoalesce(pairs, groups) && seqNo < WORD32
    requires Framing.Drained(Received(Messages(pairs, groups), seqNo, calls).1)
    ensures Flat(groups) <= states[i].pushed && SlotsOk(Flat(groups))
    ensures var msgs := Messages(pairs, groups);
            var received := Received(msgs, seqNo, calls).0;
            && (received == msgs <==> Framing.AllReceivable(msgs))
            && (received == msgs ==>
                  && AllHeardFull(received) == AllOf(Fulls(Flat(groups)))
                  && AllHeardPartials(received) == AllOf(Partials(Flat(groups))))
  {
    hide Framing.Parse, Framing.ReceiveAll, Framing.SentBytes, Framing.Drained, AllHeardFull,
      AllHeardPartials, AllOf, AllCoalesce, Flat, SlotsOk;
    SpscRing.RingIsFifo(states, events, i);
    PrefixOf(states[i].popped, SpscRing.Taken(states[i].consumer), states[i].pushed);
    MessagesHeard(pairs, groups);
    Framing.SentIsDelivered(Messages(pairs, groups), seqNo, calls);
  }

  lemma PrefixOf<T>(a: seq<T>, b: seq<T>, c: seq<T>)
    requires a + b <= c
    ensures a <= c
  {
  }
}
