/** The pool of polynomial work units: tracked checkout, completion, reclaim and split. */
module WorkPools {

  import opened Basics
  datatype WorkUnit = WorkUnit(start: nat, count: nat)

  datatype CheckedOut = CheckedOut(chunkId: nat, unit: WorkUnit, workerId: nat)

  /** The pool's fields. */
  datatype Pool = Pool(
    next: nat,
    end: nat,
    nextChunkId: nat,
    inFlight: seq<CheckedOut>,
    returned: seq<WorkUnit>)

  // ---------------------------------------------------------------------------
  // The operations as functions of the pool
  // ---------------------------------------------------------------------------

  function Fresh(start: nat, total: nat): Pool {
    Pool(start, start + total, 0, [], [])
  }

  /** Puts a unit in flight under the next chunk id. */
  function Issue(p: Pool, unit: WorkUnit, workerId: nat): (Pool, Option<CheckedOut>) {
    var cw := CheckedOut(p.nextChunkId, unit, workerId);
    (p.(nextChunkId := (p.nextChunkId + 1) % WORD32, inFlight := p.inFlight + [cw]), Some(cw))
  }

  function Checkout(p: Pool, count: nat, workerId: nat): (Pool, Option<CheckedOut>) {
    if |p.returned| > 0 then
      var last := p.returned[|p.returned| - 1];
      var rest := p.returned[..|p.returned| - 1];
      if last.count > count then
        Issue(p.(returned := rest + [WorkUnit(last.start + count, last.count - count)]),
              WorkUnit(last.start, count), workerId)
      else Issue(p.(returned := rest), last, workerId)
    else if p.next >= p.end then (p, None)
    else
      var actual := Min(count, p.end - p.next);
      Issue(p.(next := p.next + actual), WorkUnit(p.next, actual), workerId)
  }

  /** Position of the first in-flight chunk with the given id, or the length. */
  function Find(inFlight: seq<CheckedOut>, chunkId: nat): (i: nat)
    ensures i <= |inFlight|
    ensures i < |inFlight| ==> inFlight[i].chunkId == chunkId
    ensures forall k :: 0 <= k < i ==> inFlight[k].chunkId != chunkId
  {
    if |inFlight| == 0 || inFlight[0].chunkId == chunkId then 0
    else 1 + Find(inFlight[1..], chunkId)
  }

  function Without<T>(s: seq<T>, i: nat): seq<T>
    requires i < |s|
  {
    s[..i] + s[i + 1..]
  }

  function Complete(p: Pool, chunkId: nat): Pool {
    var i := Find(p.inFlight, chunkId);
    if i == |p.inFlight| then p else p.(inFlight := Without(p.inFlight, i))
  }

  function Return(p: Pool, chunkId: nat): Pool {
    var i := Find(p.inFlight, chunkId);
    if i == |p.inFlight| then p
    else p.(inFlight := Without(p.inFlight, i), returned := p.returned + [p.inFlight[i].unit])
  }

  /** The chunks of a worker, and those of the others. */
  function OfWorker(inFlight: seq<CheckedOut>, workerId: nat): seq<WorkUnit> {
    if |inFlight| == 0 then []
    else if inFlight[0].workerId == workerId then
      [inFlight[0].unit] + OfWorker(inFlight[1..], workerId)
    else OfWorker(inFlight[1..], workerId)
  }

  function OfOthers(inFlight: seq<CheckedOut>, workerId: nat): seq<CheckedOut> {
    if |inFlight| == 0 then []
    else if inFlight[0].workerId == workerId then OfOthers(inFlight[1..], workerId)
    else [inFlight[0]] + OfOthers(inFlight[1..], workerId)
  }

  function Reclaim(p: Pool, workerId: nat): Pool {
    p.(inFlight := OfOthers(p.inFlight, workerId),
       returned := p.returned + OfWorker(p.inFlight, workerId))
  }

  function ReclaimPartial(p: Pool, chunkId: nat, consumed: nat): Pool {
    var i := Find(p.inFlight, chunkId);
    if i == |p.inFlight| then p
    else
      var unit := p.inFlight[i].unit;
      var used := Min(consumed, unit.count);
      var q := p.(inFlight := Without(p.inFlight, i));
      if unit.count - used > 0 then
        q.(returned := q.returned + [WorkUnit(unit.start + used, unit.count - used)])
      else q
  }

  function SumUnits(s: seq<WorkUnit>): nat {
    if |s| == 0 then 0 else SumUnits(s[..|s| - 1]) + s[|s| - 1].count
  }

  function Units(inFlight: seq<CheckedOut>): (u: seq<WorkUnit>)
    ensures |u| == |inFlight|
    ensures forall i :: 0 <= i < |u| ==> u[i] == inFlight[i].unit
  {
    seq(|inFlight|, i requires 0 <= i < |inFlight| => inFlight[i].unit)
  }

  function Remaining(p: Pool): nat {
    (if p.next < p.end then p.end - p.next else 0) + SumUnits(p.returned)
  }

  function InFlight(p: Pool): nat {
    SumUnits(Units(p.inFlight))
  }

  function MinStart(s: seq<WorkUnit>, bound: nat): (m: nat)
    ensures m <= bound
    ensures forall i :: 0 <= i < |s| ==> m <= s[i].start
    ensures m == bound || exists i :: 0 <= i < |s| && m == s[i].start
  {
    if |s| == 0 then bound
    else
      var m := MinStart(s[..|s| - 1], bound);
      if s[|s| - 1].start < m then s[|s| - 1].start
      else m
  }

  function CompletedPrefix(p: Pool): nat {
    MinStart(p.returned, MinStart(Units(p.inFlight), p.next))
  }

  // ---------------------------------------------------------------------------
  // Who owns an a-index
  // ---------------------------------------------------------------------------

  predicate Contains(u: WorkUnit, a: nat) {
    u.start <= a < u.start + u.count
  }

  /** How many units of the list contain the index. */
  function Cover(s: seq<WorkUnit>, a: nat): nat {
    if |s| == 0 then 0
    else Cover(s[..|s| - 1], a) + if Contains(s[|s| - 1], a) then 1 else 0
  }

  ghost function Range(start: nat, count: nat): (r: set<nat>)
    ensures forall a :: a in r <==> start <= a < start + count
    ensures |r| == count
  {
    if count == 0 then {} else Range(start, count - 1) + {start + count - 1}
  }

  /** Every index already issued is completed, in flight or returned, in exactly one way, and
      nothing else is in any of the three. */
  ghost predicate Partition(p: Pool, start: nat, completed: set<nat>) {
    && start <= p.next <= p.end
    && forall a: nat ::
         Cover(Units(p.inFlight), a) + Cover(p.returned, a) + (if a in completed then 1 else 0)
         == if start <= a < p.next then 1 else 0
  }

  /** The counters agree: remaining, in flight and completed make up the whole range. */
  ghost predicate Conserved(p: Pool, start: nat, completed: set<nat>) {
    Remaining(p) + InFlight(p) + |completed| == p.end - start
  }

  /** Ids are those of the last checkouts; they are distinct until the 32-bit counter wraps. */
  ghost predicate IdsOk(p: Pool, issued: nat) {
    && p.nextChunkId == issued % WORD32
    && (issued <= WORD32 ==>
          && (forall i :: 0 <= i < |p.inFlight| ==> p.inFlight[i].chunkId < issued)
          && IdsDistinct(p.inFlight))
  }

  ghost predicate Inv(p: Pool, start: nat, completed: set<nat>, issued: nat) {
    Partition(p, start, completed) && Conserved(p, start, completed) && IdsOk(p, issued)
  }

  // ---------------------------------------------------------------------------
  // List facts
  // ---------------------------------------------------------------------------

  lemma {:induction false} CoverConcat(s: seq<WorkUnit>, t: seq<WorkUnit>, a: nat)
    ensures Cover(s + t, a) == Cover(s, a) + Cover(t, a)
    decreases |t|
  {
    if |t| == 0 {
      assert s + t == s;
    } else {
      var n := |t| - 1;
      assert (s + t)[..|s + t| - 1] == s + t[..n];
      CoverConcat(s, t[..n], a);
    }
  }

  lemma CoverOne(u: WorkUnit, a: nat)
    ensures Cover([u], a) == if Contains(u, a) then 1 else 0
  {
    assert [u][..0] == [];
  }

  lemma {:induction false} SumConcat(s: seq<WorkUnit>, t: seq<WorkUnit>)
    ensures SumUnits(s + t) == SumUnits(s) + SumUnits(t)
    decreases |t|
  {
    if |t| == 0 {
      assert s + t == s;
    } else {
      var n := |t| - 1;
      assert (s + t)[..|s + t| - 1] == s + t[..n];
      SumConcat(s, t[..n]);
    }
  }

  lemma SumOne(u: WorkUnit)
    ensures SumUnits([u]) == u.count
  {
    assert [u][..0] == [];
  }

  lemma SumNone()
    ensures SumUnits([]) == 0
  {
  }

  lemma UnitsConcat(s: seq<CheckedOut>, t: seq<CheckedOut>)
    ensures Units(s + t) == Units(s) + Units(t)
  {
  }

  lemma UnitsOne(c: CheckedOut)
    ensures Units([c]) == [c.unit]
  {
  }

  /** Taking one entry out of a list takes its unit out of cover and sum. */
  lemma WithoutUnit(s: seq<CheckedOut>, i: nat)
    requires i < |s|
    ensures forall a: nat ::
              Cover(Units(s), a) ==
              Cover(Units(Without(s, i)), a) + if Contains(s[i].unit, a) then 1 else 0
    ensures SumUnits(Units(s)) == SumUnits(Units(Without(s, i))) + s[i].unit.count
  {
    var u, l, r := s[i].unit, Units(s[..i]), Units(s[i + 1..]);
    assert Units(s) == l + [u] + r;
    assert Units(Without(s, i)) == l + r;
    forall a: nat
      ensures Cover(Units(s), a) ==
              Cover(Units(Without(s, i)), a) + if Contains(u, a) then 1 else 0
    {
      CoverConcat(l + [u], r, a);
      CoverConcat(l, [u], a);
      CoverConcat(l, r, a);
      CoverOne(u, a);
    }
    SumConcat(l + [u], r);
    SumConcat(l, [u]);
    SumConcat(l, r);
    SumOne(u);
  }

  lemma AppendUnit(s: seq<WorkUnit>, u: WorkUnit)
    ensures forall a: nat :: Cover(s + [u], a) == Cover(s, a) + if Contains(u, a) then 1 else 0
    ensures SumUnits(s + [u]) == SumUnits(s) + u.count
  {
    forall a: nat
      ensures Cover(s + [u], a) == Cover(s, a) + if Contains(u, a) then 1 else 0
    {
      CoverConcat(s, [u], a);
      CoverOne(u, a);
    }
    SumConcat(s, [u]);
    SumOne(u);
  }

  lemma CoverPrepend(u: WorkUnit, s: seq<WorkUnit>, a: nat)
    ensures Cover([u] + s, a) == Cover(s, a) + if Contains(u, a) then 1 else 0
  {
    CoverConcat([u], s, a);
    CoverOne(u, a);
  }

  lemma {:induction false} SplitCover(s: seq<CheckedOut>, w: nat, a: nat)
    ensures Cover(Units(s), a) == Cover(Units(OfOthers(s, w)), a) + Cover(OfWorker(s, w), a)
  {
    if |s| == 0 {
      assert Units(s) == [] && Units(OfOthers(s, w)) == [];
    } else {
      hide Cover, Units;
      var u, rest := s[0].unit, s[1..];
      SplitCover(rest, w, a);
      UnitsOne(s[0]);
      assert s == [s[0]] + rest;
      UnitsConcat([s[0]], rest);
      CoverPrepend(u, Units(rest), a);
      if s[0].workerId == w {
        CoverPrepend(u, OfWorker(rest, w), a);
      } else {
        UnitsConcat([s[0]], OfOthers(rest, w));
        CoverPrepend(u, Units(OfOthers(rest, w)), a);
      }
    }
  }

  lemma SumPrepend(u: WorkUnit, s: seq<WorkUnit>)
    ensures SumUnits([u] + s) == SumUnits(s) + u.count
  {
    SumConcat([u], s);
    SumOne(u);
  }

  lemma {:induction false} SplitSum(s: seq<CheckedOut>, w: nat)
    ensures SumUnits(Units(s)) == SumUnits(Units(OfOthers(s, w))) + SumUnits(OfWorker(s, w))
  {
    if |s| == 0 {
      assert Units(s) == [] && Units(OfOthers(s, w)) == [];
    } else {
      hide SumUnits, Units;
      var u, rest := s[0].unit, s[1..];
      SplitSum(rest, w);
      UnitsOne(s[0]);
      assert s == [s[0]] + rest;
      UnitsConcat([s[0]], rest);
      SumPrepend(u, Units(rest));
      if s[0].workerId == w {
        SumPrepend(u, OfWorker(rest, w));
      } else {
        UnitsConcat([s[0]], OfOthers(rest, w));
        SumPrepend(u, Units(OfOthers(rest, w)));
      }
    }
  }

  /** A worker's chunks and the others' chunks make up all chunks. */
  lemma SplitByWorker(s: seq<CheckedOut>, w: nat)
    ensures forall a: nat ::
              Cover(Units(s), a) == Cover(Units(OfOthers(s, w)), a) + Cover(OfWorker(s, w), a)
    ensures SumUnits(Units(s)) == SumUnits(Units(OfOthers(s, w))) + SumUnits(OfWorker(s, w))
  {
    forall a: nat
      ensures Cover(Units(s), a) == Cover(Units(OfOthers(s, w)), a) + Cover(OfWorker(s, w), a)
    {
      SplitCover(s, w, a);
    }
    SplitSum(s, w);
  }

  lemma {:induction false} OthersSubset(s: seq<CheckedOut>, w: nat)
    ensures forall c :: c in OfOthers(s, w) ==> c in s
    ensures IdsDistinct(s) ==> IdsDistinct(OfOthers(s, w))
  {
    if |s| > 0 {
      OthersSubset(s[1..], w);
      assert s == [s[0]] + s[1..];
      if IdsDistinct(s) {
        var o := OfOthers(s[1..], w);
        assert IdsDistinct(s[1..]);
        forall i | 0 <= i < |o| ensures o[i].chunkId != s[0].chunkId {
          assert o[i] in s[1..];
          var k :| 0 <= k < |s[1..]| && s[1..][k] == o[i];
          assert s[k + 1] == o[i];
        }
      }
    }
  }

  ghost predicate IdsDistinct(s: seq<CheckedOut>) {
    forall i, j :: 0 <= i < j < |s| ==> s[i].chunkId != s[j].chunkId
  }

  // ---------------------------------------------------------------------------
  // Runs
  // ---------------------------------------------------------------------------

  datatype Event =
    | EvCheckout(count: nat, workerId: nat)
    | EvComplete(chunkId: nat)
    | EvReturn(chunkId: nat)
    | EvReclaim(workerId: nat)
    | EvReclaimPartial(chunkId: nat, consumed: nat)

  function Apply(p: Pool, e: Event): Pool {
    match e
    case EvCheckout(count, workerId) => Checkout(p, count, workerId).0
    case EvComplete(chunkId) => Complete(p, chunkId)
    case EvReturn(chunkId) => Return(p, chunkId)
    case EvReclaim(workerId) => Reclaim(p, workerId)
    case EvReclaimPartial(chunkId, consumed) => ReclaimPartial(p, chunkId, consumed)
  }

  /** The indices an event reports as sieved: those of a completed chunk, or the consumed front
      part of a recalled one. */
  ghost function Sieved(p: Pool, e: Event): set<nat> {
    match e
    case EvComplete(chunkId) =>
      var i := Find(p.inFlight, chunkId);
      if i == |p.inFlight| then {}
      else Range(p.inFlight[i].unit.start, p.inFlight[i].unit.count)
    case EvReclaimPartial(chunkId, consumed) =>
      var i := Find(p.inFlight, chunkId);
      if i == |p.inFlight| then {}
      else Range(p.inFlight[i].unit.start, Min(consumed, p.inFlight[i].unit.count))
    case _ => {}
  }

  function Issued(p: Pool, e: Event): nat {
    if e.EvCheckout? && Checkout(p, e.count, e.workerId).1.Some? then 1 else 0
  }

  ghost function RunPool(p: Pool, events: seq<Event>): Pool {
    if |events| == 0 then p else Apply(RunPool(p, events[..|events| - 1]), events[|events| - 1])
  }

  ghost function RunSieved(p: Pool, events: seq<Event>): set<nat> {
    if |events| == 0 then {}
    else
      var before := events[..|events| - 1];
      RunSieved(p, before) + Sieved(RunPool(p, before), events[|events| - 1])
  }

  ghost function RunIssued(p: Pool, events: seq<Event>): nat {
    if |events| == 0 then 0
    else
      var before := events[..|events| - 1];
      RunIssued(p, before) + Issued(RunPool(p, before), events[|events| - 1])
  }

  // ---------------------------------------------------------------------------
  // Every event keeps the invariant
  // ---------------------------------------------------------------------------

  lemma IssueIds(p: Pool, q: Pool, unit: WorkUnit, workerId: nat, issued: nat)
    requires IdsOk(p, issued)
    requires q.inFlight == p.inFlight && q.nextChunkId == p.nextChunkId
    ensures IdsOk(Issue(q, unit, workerId).0, issued + 1)
  {
    if issued < WORD32 {
      assert issued % WORD32 == issued;
    }
    assert (issued % WORD32 + 1) % WORD32 == (issued + 1) % WORD32;
  }

  lemma IssueUnits(p: Pool, unit: WorkUnit, workerId: nat)
    ensures var q := Issue(p, unit, workerId).0;
            && Units(q.inFlight) == Units(p.inFlight) + [unit]
            && q.next == p.next && q.end == p.end && q.returned == p.returned
  {
  }

  lemma CheckoutKeeps(p: Pool, start: nat, completed: set<nat>, issued: nat, count: nat,
                      workerId: nat)
    requires Inv(p, start, completed, issued)
    ensures var (q, cw) := Checkout(p, count, workerId);
            Inv(q, start, completed, issued + if cw.Some? then 1 else 0)
  {
    hide IdsOk, Cover, SumUnits;
    var flying := Units(p.inFlight);
    if |p.returned| > 0 {
      var last, rest := p.returned[|p.returned| - 1], p.returned[..|p.returned| - 1];
      assert p.returned == rest + [last];
      AppendUnit(rest, last);
      if last.count > count {
        var front, back := WorkUnit(last.start, count),
                           WorkUnit(last.start + count, last.count - count);
        var base := p.(returned := rest + [back]);
        AppendUnit(rest, back);
        AppendUnit(flying, front);
        IssueUnits(base, front, workerId);
        IssueIds(p, base, front, workerId, issued);
      } else {
        var base := p.(returned := rest);
        AppendUnit(flying, last);
        IssueUnits(base, last, workerId);
        IssueIds(p, base, last, workerId, issued);
      }
    } else if p.next < p.end {
      var actual := Min(count, p.end - p.next);
      var unit := WorkUnit(p.next, actual);
      var base := p.(next := p.next + actual);
      AppendUnit(flying, unit);
      IssueUnits(base, unit, workerId);
      IssueIds(p, base, unit, workerId, issued);
    }
  }

  lemma WithoutIds(p: Pool, i: nat, issued: nat)
    requires IdsOk(p, issued) && i < |p.inFlight|
    ensures IdsOk(p.(inFlight := Without(p.inFlight, i)), issued)
  {
  }

  /** The indices of an in-flight chunk are not completed yet. */
  lemma FlyingNotCompleted(p: Pool, start: nat, completed: set<nat>, i: nat)
    requires Partition(p, start, completed) && i < |p.inFlight|
    ensures forall a :: Contains(p.inFlight[i].unit, a) ==> a !in completed
  {
    WithoutUnit(p.inFlight, i);
  }

  lemma CompletePartition(p: Pool, start: nat, completed: set<nat>, i: nat)
    requires Partition(p, start, completed) && i < |p.inFlight|
    ensures Partition(p.(inFlight := Without(p.inFlight, i)), start,
                      completed + Range(p.inFlight[i].unit.start, p.inFlight[i].unit.count))
  {
    hide Cover, SumUnits, Units, Without;
    WithoutUnit(p.inFlight, i);
    FlyingNotCompleted(p, start, completed, i);
  }

  lemma CompleteConserved(p: Pool, start: nat, completed: set<nat>, i: nat)
    requires Partition(p, start, completed) && Conserved(p, start, completed)
    requires i < |p.inFlight|
    ensures Conserved(p.(inFlight := Without(p.inFlight, i)), start,
                      completed + Range(p.inFlight[i].unit.start, p.inFlight[i].unit.count))
  {
    hide Cover, SumUnits, Units, Without, Partition;
    WithoutUnit(p.inFlight, i);
    FlyingNotCompleted(p, start, completed, i);
    DisjointSize(completed, Range(p.inFlight[i].unit.start, p.inFlight[i].unit.count));
  }

  lemma CompleteKeeps(p: Pool, start: nat, completed: set<nat>, issued: nat, chunkId: nat)
    requires Inv(p, start, completed, issued)
    ensures Inv(Complete(p, chunkId), start, completed + Sieved(p, EvComplete(chunkId)), issued)
  {
    hide IdsOk, Cover, SumUnits, Partition, Conserved;
    var i := Find(p.inFlight, chunkId);
    if i < |p.inFlight| {
      WithoutIds(p, i, issued);
      CompletePartition(p, start, completed, i);
      CompleteConserved(p, start, completed, i);
    } else {
      assert completed + {} == completed;
    }
  }

  lemma ReturnKeeps(p: Pool, start: nat, completed: set<nat>, issued: nat, chunkId: nat)
    requires Inv(p, start, completed, issued)
    ensures Inv(Return(p, chunkId), start, completed, issued)
  {
    hide IdsOk, Cover, SumUnits;
    var i := Find(p.inFlight, chunkId);
    if i < |p.inFlight| {
      WithoutUnit(p.inFlight, i);
      WithoutIds(p, i, issued);
      AppendUnit(p.returned, p.inFlight[i].unit);
      IdsLocal(p.(inFlight := Without(p.inFlight, i)), Return(p, chunkId), issued);
    }
  }

  lemma IdsLocal(p: Pool, q: Pool, issued: nat)
    requires IdsOk(p, issued) && q.inFlight == p.inFlight && q.nextChunkId == p.nextChunkId
    ensures IdsOk(q, issued)
  {
  }

  lemma ReclaimIds(p: Pool, workerId: nat, issued: nat)
    requires IdsOk(p, issued)
    ensures IdsOk(Reclaim(p, workerId), issued)
  {
    OthersSubset(p.inFlight, workerId);
    var o := OfOthers(p.inFlight, workerId);
    if issued <= WORD32 {
      forall i | 0 <= i < |o| ensures o[i].chunkId < issued {
        assert o[i] in p.inFlight;
      }
    }
  }

  lemma ReclaimKeeps(p: Pool, start: nat, completed: set<nat>, issued: nat, workerId: nat)
    requires Inv(p, start, completed, issued)
    ensures Inv(Reclaim(p, workerId), start, completed, issued)
  {
    hide IdsOk, Cover, SumUnits;
    var mine := OfWorker(p.inFlight, workerId);
    SplitByWorker(p.inFlight, workerId);
    forall a: nat ensures Cover(p.returned + mine, a) == Cover(p.returned, a) + Cover(mine, a) {
      CoverConcat(p.returned, mine, a);
    }
    SumConcat(p.returned, mine);
    ReclaimIds(p, workerId, issued);
  }

  /** Splitting a chunk into a sieved front part and a returned rest. */
  function SplitOff(p: Pool, i: nat, used: nat): Pool
    requires i < |p.inFlight| && used <= p.inFlight[i].unit.count
  {
    var unit := p.inFlight[i].unit;
    Pool(p.next, p.end, p.nextChunkId, Without(p.inFlight, i),
         p.returned + [WorkUnit(unit.start + used, unit.count - used)])
  }

  lemma SplitPartition(p: Pool, start: nat, completed: set<nat>, i: nat, used: nat)
    requires Partition(p, start, completed)
    requires i < |p.inFlight| && used <= p.inFlight[i].unit.count
    ensures Partition(SplitOff(p, i, used), start,
                      completed + Range(p.inFlight[i].unit.start, used))
  {
    hide Cover, Units, Without, Range;
    var q := SplitOff(p, i, used);
    var s := Range(p.inFlight[i].unit.start, used);
    forall a: nat
      ensures Cover(Units(q.inFlight), a) + Cover(q.returned, a)
              + (if a in completed + s then 1 else 0) == if start <= a < q.next then 1 else 0
    {
      SplitAt(p, start, completed, i, used, a);
    }
  }

  lemma SplitConserved(p: Pool, start: nat, completed: set<nat>, i: nat, used: nat)
    requires Partition(p, start, completed) && Conserved(p, start, completed)
    requires i < |p.inFlight| && used <= p.inFlight[i].unit.count
    ensures Conserved(SplitOff(p, i, used), start,
                      completed + Range(p.inFlight[i].unit.start, used))
  {
    hide Cover, SumUnits, Units, Without, Partition;
    var unit := p.inFlight[i].unit;
    var s, rest := Range(unit.start, used), WorkUnit(unit.start + used, unit.count - used);
    FlyingNotCompleted(p, start, completed, i);
    DisjointSize(completed, s);
    hide Range;
    assert SumUnits(Units(p.inFlight))
           == SumUnits(Units(Without(p.inFlight, i))) + unit.count by {
      WithoutUnit(p.inFlight, i);
    }
    assert SumUnits(p.returned + [rest]) == SumUnits(p.returned) + rest.count by {
      AppendUnit(p.returned, rest);
    }
  }

  function Ind(b: bool): nat {
    if b then 1 else 0
  }

  lemma SplitParts(unit: WorkUnit, used: nat, a: nat)
    requires used <= unit.count
    ensures Ind(Contains(unit, a)) ==
            Ind(a in Range(unit.start, used))
            + Ind(Contains(WorkUnit(unit.start + used, unit.count - used), a))
  {
  }

  lemma SplitAt(p: Pool, start: nat, completed: set<nat>, i: nat, used: nat, a: nat)
    requires Partition(p, start, completed)
    requires i < |p.inFlight| && used <= p.inFlight[i].unit.count
    ensures var unit := p.inFlight[i].unit;
            Cover(Units(Without(p.inFlight, i)), a)
            + Cover(p.returned + [WorkUnit(unit.start + used, unit.count - used)], a)
            + (if a in completed + Range(unit.start, used) then 1 else 0)
            == if start <= a < p.next then 1 else 0
  {
    hide Cover, SumUnits, Units, Without, Range;
    var unit := p.inFlight[i].unit;
    var rest := WorkUnit(unit.start + used, unit.count - used);
    SplitParts(unit, used, a);
    assert Cover(Units(p.inFlight), a)
           == Cover(Units(Without(p.inFlight, i)), a) + Ind(Contains(unit, a)) by {
      WithoutUnit(p.inFlight, i);
    }
    assert Cover(p.returned + [rest], a) == Cover(p.returned, a) + Ind(Contains(rest, a)) by {
      AppendUnit(p.returned, rest);
    }
    assert Ind(a in completed + Range(unit.start, used))
           == Ind(a in completed) + Ind(a in Range(unit.start, used)) by {
      FlyingNotCompleted(p, start, completed, i);
    }
  }

  lemma DisjointSize(a: set<nat>, b: set<nat>)
    requires forall e :: e in b ==> e !in a
    ensures |a + b| == |a| + |b|
  {
    assert a !! b;
  }

  lemma ReclaimPartialKeeps(p: Pool, start: nat, completed: set<nat>, issued: nat, chunkId: nat,
                            consumed: nat)
    requires Inv(p, start, completed, issued)
    ensures Inv(ReclaimPartial(p, chunkId, consumed), start,
                completed + Sieved(p, EvReclaimPartial(chunkId, consumed)), issued)
  {
    hide IdsOk, Cover, SumUnits, Partition, Conserved;
    var i := Find(p.inFlight, chunkId);
    if i < |p.inFlight| {
      var unit := p.inFlight[i].unit;
      var used := Min(consumed, unit.count);
      WithoutIds(p, i, issued);
      IdsLocal(p.(inFlight := Without(p.inFlight, i)), ReclaimPartial(p, chunkId, consumed),
               issued);
      if used < unit.count {
        SplitPartition(p, start, completed, i, used);
        SplitConserved(p, start, completed, i, used);
      } else {
        CompleteKeeps(p, start, completed, issued, chunkId);
      }
    } else {
      assert completed + {} == completed;
    }
  }

  lemma EventKeeps(p: Pool, start: nat, completed: set<nat>, issued: nat, e: Event)
    requires Inv(p, start, completed, issued)
    ensures Inv(Apply(p, e), start, completed + Sieved(p, e), issued + Issued(p, e))
  {
    hide Inv, Checkout, Complete, Return, Reclaim, ReclaimPartial;
    assert completed + {} == completed;
    match e
    case EvCheckout(count, workerId) => CheckoutKeeps(p, start, completed, issued, count, workerId);
    case EvComplete(chunkId) => CompleteKeeps(p, start, completed, issued, chunkId);
    case EvReturn(chunkId) => ReturnKeeps(p, start, completed, issued, chunkId);
    case EvReclaim(workerId) => ReclaimKeeps(p, start, completed, issued, workerId);
    case EvReclaimPartial(chunkId, consumed) =>
      ReclaimPartialKeeps(p, start, completed, issued, chunkId, consumed);
  }

  lemma FreshInv(start: nat, total: nat)
    ensures Inv(Fresh(start, total), start, {}, 0)
  {
  }

  /** In every state a fresh pool can reach, the range is partitioned into completed, in-flight,
      returned and not yet issued indices, the counters add up, and chunk ids are distinct up
      to 2^32 checkouts. */
  lemma {:induction false} EveryRunPartitions(start: nat, total: nat, events: seq<Event>)
    ensures var p := Fresh(start, total);
            Inv(RunPool(p, events), start, RunSieved(p, events), RunIssued(p, events))
  {
    hide Inv, Apply, Sieved, Issued;
    var p := Fresh(start, total);
    if |events| == 0 {
      FreshInv(start, total);
    } else {
      var before, e := events[..|events| - 1], events[|events| - 1];
      EveryRunPartitions(start, total, before);
      EventKeeps(RunPool(p, before), start, RunSieved(p, before), RunIssued(p, before), e);
    }
  }

  // ---------------------------------------------------------------------------
  // Chunk ids
  // ---------------------------------------------------------------------------

  /** `n` checkouts of one index each. */
  function SingleCheckouts(n: nat): seq<Event> {
    seq(n, _ => EvCheckout(1, 0))
  }

  /** After `n` checkouts with none completed, entry `i` carries the id `i` modulo 2^32. */
  ghost predicate CountsUp(p: Pool, n: nat, total: nat) {
    && p.next == n && p.end == total && p.nextChunkId == n % WORD32
    && p.returned == [] && |p.inFlight| == n
    && forall i :: 0 <= i < n ==> p.inFlight[i].chunkId == i % WORD32
  }

  lemma CountsUpStep(p: Pool, n: nat, total: nat)
    requires CountsUp(p, n, total) && n < total
    ensures CountsUp(Apply(p, EvCheckout(1, 0)), n + 1, total)
    ensures Issued(p, EvCheckout(1, 0)) == 1
  {
    NextId(n);
  }

  lemma NextId(n: nat)
    ensures (n % WORD32 + 1) % WORD32 == (n + 1) % WORD32
  {
  }

  lemma {:induction false} ManyCheckouts(n: nat, total: nat)
    requires n <= total
    ensures CountsUp(RunPool(Fresh(0, total), SingleCheckouts(n)), n, total)
    ensures RunIssued(Fresh(0, total), SingleCheckouts(n)) == n
  {
    if n > 0 {
      assert SingleCheckouts(n)[..n - 1] == SingleCheckouts(n - 1);
      hide Apply, Issued, CountsUp, SingleCheckouts;
      ManyCheckouts(n - 1, total);
      CountsUpStep(RunPool(Fresh(0, total), SingleCheckouts(n - 1)), n - 1, total);
      LastSingle(n);
    }
  }

  lemma LastSingle(n: nat)
    requires n > 0
    ensures |SingleCheckouts(n)| == n && SingleCheckouts(n)[n - 1] == EvCheckout(1, 0)
    ensures SingleCheckouts(n)[..n - 1] == SingleCheckouts(n - 1)
  {
  }

  /** Exactly when: the ids in flight are distinct in every run of up to `n` checkouts if and only
      if `n` is at most 2^32. */
  lemma DistinctIdsIff(n: nat)
    ensures (forall start: nat, total: nat, events: seq<Event> ::
               RunIssued(Fresh(start, total), events) <= n ==>
                 IdsDistinct(RunPool(Fresh(start, total), events).inFlight))
            <==> n <= WORD32
  {
    hide RunPool, RunIssued, Partition, Conserved, Fresh, SingleCheckouts;
    if n <= WORD32 {
      forall start: nat, total: nat, events: seq<Event> |
        RunIssued(Fresh(start, total), events) <= n
        ensures IdsDistinct(RunPool(Fresh(start, total), events).inFlight)
      {
        EveryRunPartitions(start, total, events);
      }
    } else {
      var m := WORD32 + 1;
      ManyCheckouts(m, m);
      var flying := RunPool(Fresh(0, m), SingleCheckouts(m)).inFlight;
      assert flying[0].chunkId == 0 % WORD32 == WORD32 % WORD32 == flying[WORD32].chunkId;
      assert !IdsDistinct(flying);
      assert RunIssued(Fresh(0, m), SingleCheckouts(m)) <= n;
    }
  }

  // ---------------------------------------------------------------------------
  // The completed prefix
  // ---------------------------------------------------------------------------

  ghost predicate AllCompleted(start: nat, c: nat, completed: set<nat>) {
    forall a :: start <= a < c ==> a in completed
  }

  lemma {:induction false} NoCoverBelow(s: seq<WorkUnit>, a: nat)
    requires forall i :: 0 <= i < |s| ==> a < s[i].start
    ensures Cover(s, a) == 0
  {
    if |s| > 0 {
      NoCoverBelow(s[..|s| - 1], a);
    }
  }

  lemma {:induction false} CoveredStart(s: seq<WorkUnit>, i: nat)
    requires i < |s| && s[i].count > 0
    ensures Cover(s, s[i].start) > 0
  {
    if i < |s| - 1 {
      CoveredStart(s[..|s| - 1], i);
    }
  }

  /** Nothing below the completed-prefix cursor is unfinished. */
  lemma PrefixIsCompleted(p: Pool, start: nat, completed: set<nat>)
    requires Partition(p, start, completed)
    ensures AllCompleted(start, CompletedPrefix(p), completed)
  {
    hide Cover;
    var c := CompletedPrefix(p);
    forall a | start <= a < c ensures a in completed {
      NoCoverBelow(Units(p.inFlight), a);
      NoCoverBelow(p.returned, a);
    }
  }

  /** No unit that is in flight or returned is empty. */
  ghost predicate NoEmptyUnits(s: seq<WorkUnit>) {
    forall i :: 0 <= i < |s| ==> s[i].count > 0
  }

  /** The cursor that a reader of the whole history would compute. */
  ghost predicate IsLargestPrefix(p: Pool, start: nat, completed: set<nat>, c: nat) {
    && start <= c <= p.next
    && AllCompleted(start, c, completed)
    && (c == p.next || c !in completed)
  }

  lemma LargestUnique(p: Pool, start: nat, completed: set<nat>, c: nat, d: nat)
    requires IsLargestPrefix(p, start, completed, c) && IsLargestPrefix(p, start, completed, d)
    ensures c == d
  {
  }

  function NonEmpty(s: seq<WorkUnit>): (r: seq<WorkUnit>)
    ensures forall i :: 0 <= i < |s| && s[i].count > 0 ==> s[i] in r
    ensures forall i :: 0 <= i < |r| ==> r[i].count > 0 && r[i] in s
  {
    if |s| == 0 then []
    else
      NonEmpty(s[..|s| - 1]) + if s[|s| - 1].count > 0 then [s[|s| - 1]] else []
  }

  /** The least start of the nonempty units that are in flight or returned; the issue cursor if
      there is none. */
  function OpenStart(p: Pool): nat {
    MinStart(NonEmpty(p.returned), MinStart(NonEmpty(Units(p.inFlight)), p.next))
  }

  lemma OpenStartBounds(p: Pool)
    ensures CompletedPrefix(p) <= OpenStart(p) <= p.next
    ensures forall i :: 0 <= i < |p.returned| && p.returned[i].count > 0 ==>
              OpenStart(p) <= p.returned[i].start
    ensures forall i :: 0 <= i < |p.inFlight| && p.inFlight[i].unit.count > 0 ==>
              OpenStart(p) <= p.inFlight[i].unit.start
    ensures OpenStart(p) == p.next
            || (exists i :: 0 <= i < |p.returned| && p.returned[i].count > 0
                            && OpenStart(p) == p.returned[i].start)
            || exists i :: 0 <= i < |p.inFlight| && p.inFlight[i].unit.count > 0
                           && OpenStart(p) == p.inFlight[i].unit.start
  {
    var r, f, u := NonEmpty(p.returned), NonEmpty(Units(p.inFlight)), Units(p.inFlight);
    hide MinStart, NonEmpty;
    forall i | 0 <= i < |p.inFlight| && p.inFlight[i].unit.count > 0
      ensures OpenStart(p) <= p.inFlight[i].unit.start
    {
      assert u[i] in f;
    }
    forall i | 0 <= i < |r| ensures CompletedPrefix(p) <= r[i].start {
      assert r[i] in p.returned;
    }
    forall i | 0 <= i < |f| ensures CompletedPrefix(p) <= f[i].start {
      assert f[i] in u;
    }
    if i :| 0 <= i < |f| && OpenStart(p) == f[i].start {
      assert f[i] in u;
      var k :| 0 <= k < |u| && u[k] == f[i];
      assert p.inFlight[k].unit == f[i];
    }
    if i :| 0 <= i < |r| && OpenStart(p) == r[i].start {
      assert r[i] in p.returned;
    }
  }

  lemma {:induction false} EmptyCoversNothing(s: seq<WorkUnit>, a: nat)
    requires forall i :: 0 <= i < |s| && s[i].count > 0 ==> a < s[i].start
    ensures Cover(s, a) == 0
  {
    if |s| > 0 {
      EmptyCoversNothing(s[..|s| - 1], a);
    }
  }

  /** The least open start is the largest prefix: what a reader of the whole history would
      compute can be read off the state. */
  lemma OpenStartIsLargest(p: Pool, start: nat, completed: set<nat>)
    requires Partition(p, start, completed)
    ensures IsLargestPrefix(p, start, completed, OpenStart(p))
  {
    hide Cover, OpenStart;
    OpenStartBounds(p);
    var c, flying := OpenStart(p), Units(p.inFlight);
    forall a: nat | a < c
      ensures Cover(flying, a) == 0 && Cover(p.returned, a) == 0
    {
      EmptyCoversNothing(flying, a);
      EmptyCoversNothing(p.returned, a);
    }
    if c != p.next {
      if i :| 0 <= i < |p.returned| && p.returned[i].count > 0 && c == p.returned[i].start {
        CoveredStart(p.returned, i);
      } else {
        var i :| 0 <= i < |flying| && flying[i].count > 0 && c == flying[i].start;
        CoveredStart(flying, i);
      }
    }
  }

  /** Exactly when: the cursor is the largest prefix if and only if no empty unit starts below
      every nonempty one. */
  lemma PrefixLargestIff(p: Pool, start: nat, completed: set<nat>)
    requires Partition(p, start, completed)
    ensures IsLargestPrefix(p, start, completed, CompletedPrefix(p)) <==>
            && (forall i :: 0 <= i < |p.returned| && p.returned[i].count == 0 ==>
                  OpenStart(p) <= p.returned[i].start)
            && (forall i :: 0 <= i < |p.inFlight| && p.inFlight[i].unit.count == 0 ==>
                  OpenStart(p) <= p.inFlight[i].unit.start)
  {
    var u := Units(p.inFlight);
    hide Partition, OpenStart, IsLargestPrefix, MinStart;
    OpenStartIsLargest(p, start, completed);
    OpenStartBounds(p);
    if IsLargestPrefix(p, start, completed, CompletedPrefix(p)) {
      LargestUnique(p, start, completed, CompletedPrefix(p), OpenStart(p));
      forall i | 0 <= i < |p.inFlight| ensures OpenStart(p) <= p.inFlight[i].unit.start {
        assert u[i] == p.inFlight[i].unit;
      }
    }
  }

  // ---------------------------------------------------------------------------
  // Runs with positive checkouts
  // ---------------------------------------------------------------------------

  predicate PositiveEvent(e: Event) {
    e.EvCheckout? ==> e.count > 0
  }

  ghost predicate NothingEmpty(p: Pool) {
    NoEmptyUnits(p.returned) && NoEmptyUnits(Units(p.inFlight))
  }

  lemma {:induction false} WorkerNonEmpty(s: seq<CheckedOut>, w: nat)
    requires forall i :: 0 <= i < |s| ==> s[i].unit.count > 0
    ensures NoEmptyUnits(OfWorker(s, w))
    ensures forall i :: 0 <= i < |OfOthers(s, w)| ==> OfOthers(s, w)[i].unit.count > 0
  {
    if |s| > 0 {
      WorkerNonEmpty(s[1..], w);
    }
  }

  lemma CheckoutNonEmpty(p: Pool, count: nat, workerId: nat)
    requires NothingEmpty(p) && count > 0
    ensures NothingEmpty(Checkout(p, count, workerId).0)
  {
    forall i | 0 <= i < |p.inFlight| ensures p.inFlight[i].unit.count > 0 {
      assert Units(p.inFlight)[i].count > 0;
    }
  }

  lemma WithoutNonEmpty(s: seq<CheckedOut>, i: nat)
    requires forall k :: 0 <= k < |s| ==> s[k].unit.count > 0
    ensures i < |s| ==> NoEmptyUnits(Units(Without(s, i)))
  {
  }

  /** No operation makes an empty unit out of nonempty ones. */
  lemma EventNonEmpty(p: Pool, e: Event)
    requires NothingEmpty(p) && PositiveEvent(e)
    ensures NothingEmpty(Apply(p, e))
  {
    forall i | 0 <= i < |p.inFlight| ensures p.inFlight[i].unit.count > 0 {
      assert Units(p.inFlight)[i].count > 0;
    }
    match e
    case EvCheckout(count, workerId) =>
      hide NothingEmpty;
      CheckoutNonEmpty(p, count, workerId);
    case EvReclaim(workerId) => WorkerNonEmpty(p.inFlight, workerId);
    case EvComplete(chunkId) => WithoutNonEmpty(p.inFlight, Find(p.inFlight, chunkId));
    case EvReturn(chunkId) => WithoutNonEmpty(p.inFlight, Find(p.inFlight, chunkId));
    case EvReclaimPartial(chunkId, _) => WithoutNonEmpty(p.inFlight, Find(p.inFlight, chunkId));
  }

  lemma {:induction false} RunNonEmpty(start: nat, total: nat, events: seq<Event>)
    requires forall i :: 0 <= i < |events| ==> PositiveEvent(events[i])
    ensures NothingEmpty(RunPool(Fresh(start, total), events))
  {
    if |events| > 0 {
      hide Apply, NothingEmpty;
      RunNonEmpty(start, total, events[..|events| - 1]);
      EventNonEmpty(RunPool(Fresh(start, total), events[..|events| - 1]), events[|events| - 1]);
    }
  }

  /** In every run whose checkouts are positive, the cursor is the largest one with everything
      below it completed. */
  lemma PrefixIsLargest(start: nat, total: nat, events: seq<Event>)
    requires forall i :: 0 <= i < |events| ==> PositiveEvent(events[i])
    ensures var p := RunPool(Fresh(start, total), events);
            IsLargestPrefix(p, start, RunSieved(Fresh(start, total), events), CompletedPrefix(p))
  {
    hide RunPool, RunSieved, Partition, Conserved, IdsOk, IsLargestPrefix, OpenStart;
    var p := RunPool(Fresh(start, total), events);
    var done := RunSieved(Fresh(start, total), events);
    EveryRunPartitions(start, total, events);
    RunNonEmpty(start, total, events);
    forall i | 0 <= i < |p.inFlight| ensures p.inFlight[i].unit.count > 0 {
      assert Units(p.inFlight)[i].count > 0;
    }
    PrefixLargestIff(p, start, done);
  }

  /** An empty unit can hold the cursor back below indices that are completed. */
  lemma EmptyCheckoutHoldsBack()
    ensures var events := [EvCheckout(0, 1), EvCheckout(5, 1), EvComplete(1)];
            var p, done := RunPool(Fresh(0, 10), events), RunSieved(Fresh(0, 10), events);
            && CompletedPrefix(p) == 0 && p.next == 5 && done == Range(0, 5)
            && !IsLargestPrefix(p, 0, done, CompletedPrefix(p))
  {
    hide RunPool, RunSieved, CompletedPrefix, Apply;
    var e0, e1, e2 := EvCheckout(0, 1), EvCheckout(5, 1), EvComplete(1);
    EmptyCheckoutSieved(e0, e1, e2);
    EmptyCheckoutStates(e0, e1, e2);
    assert [e0, e1, e2][..2] == [e0, e1] && [e0, e1][..1] == [e0] && [e0][..0] == [];
    RunThree(Fresh(0, 10), e0, e1, e2);
    EmptyCheckoutPrefix();
  }

  lemma RunThree(p: Pool, e0: Event, e1: Event, e2: Event)
    ensures RunPool(p, [e0, e1, e2]) == Apply(Apply(Apply(p, e0), e1), e2)
  {
    hide Apply;
    assert [e0, e1, e2][..2] == [e0, e1] && [e0, e1][..1] == [e0] && [e0][..0] == [];
    assert RunPool(p, [e0]) == Apply(p, e0);
    assert RunPool(p, [e0, e1]) == Apply(Apply(p, e0), e1);
  }

  lemma EmptyCheckoutStates(e0: Event, e1: Event, e2: Event)
    requires e0 == EvCheckout(0, 1) && e1 == EvCheckout(5, 1) && e2 == EvComplete(1)
    ensures Apply(Apply(Apply(Fresh(0, 10), e0), e1), e2)
            == Pool(5, 10, 2, [CheckedOut(0, WorkUnit(0, 0), 1)], [])
  {
    var a, b := CheckedOut(0, WorkUnit(0, 0), 1), CheckedOut(1, WorkUnit(0, 5), 1);
    assert Apply(Fresh(0, 10), e0) == Pool(0, 10, 1, [a], []);
    assert Apply(Pool(0, 10, 1, [a], []), e1) == Pool(5, 10, 2, [a, b], []);
    assert [a, b][1..] == [b];
    assert Find([b], 1) == 0;
    assert Find([a, b], 1) == 1;
  }

  lemma SievedThree(p: Pool, e0: Event, e1: Event, e2: Event)
    ensures RunSieved(p, [e0, e1, e2])
            == Sieved(p, e0) + Sieved(Apply(p, e0), e1) + Sieved(Apply(Apply(p, e0), e1), e2)
  {
    hide Apply, Sieved;
    assert [e0, e1, e2][..2] == [e0, e1] && [e0, e1][..1] == [e0] && [e0][..0] == [];
    assert RunPool(p, [e0]) == Apply(p, e0);
    assert RunPool(p, [e0, e1]) == Apply(Apply(p, e0), e1);
    assert RunSieved(p, [e0]) == Sieved(p, e0);
    assert RunSieved(p, [e0, e1]) == Sieved(p, e0) + Sieved(Apply(p, e0), e1);
  }

  lemma EmptyCheckoutSieved(e0: Event, e1: Event, e2: Event)
    requires e0 == EvCheckout(0, 1) && e1 == EvCheckout(5, 1) && e2 == EvComplete(1)
    ensures RunSieved(Fresh(0, 10), [e0, e1, e2]) == Range(0, 5)
  {
    hide RunSieved, Range;
    var a, b := CheckedOut(0, WorkUnit(0, 0), 1), CheckedOut(1, WorkUnit(0, 5), 1);
    SievedThree(Fresh(0, 10), e0, e1, e2);
    assert Apply(Fresh(0, 10), e0) == Pool(0, 10, 1, [a], []);
    assert Apply(Pool(0, 10, 1, [a], []), e1) == Pool(5, 10, 2, [a, b], []);
    assert [a, b][1..] == [b];
    assert Find([b], 1) == 0;
    assert Find([a, b], 1) == 1;
    assert Sieved(Pool(5, 10, 2, [a, b], []), e2) == Range(0, 5);
  }

  lemma EmptyCheckoutPrefix()
    ensures CompletedPrefix(Pool(5, 10, 2, [CheckedOut(0, WorkUnit(0, 0), 1)], [])) == 0
  {
    assert Units([CheckedOut(0, WorkUnit(0, 0), 1)]) == [WorkUnit(0, 0)];
    assert [WorkUnit(0, 0)][..0] == [];
  }

  // ---------------------------------------------------------------------------
  // Progress
  // ---------------------------------------------------------------------------

  lemma SumPositive(s: seq<WorkUnit>)
    requires NoEmptyUnits(s)
    ensures SumUnits(s) == 0 <==> |s| == 0
  {
    if |s| > 0 {
      assert s[|s| - 1].count > 0;
    }
  }

  /** A positive checkout is refused exactly when nothing is left to hand out. */
  lemma RefusedIff(p: Pool, count: nat, workerId: nat)
    requires NothingEmpty(p) && count > 0
    ensures Checkout(p, count, workerId).1.None? <==> Remaining(p) == 0
  {
    SumPositive(p.returned);
  }

  /** What a checkout hands out: a nonempty unit no longer than asked for, under the next id; it is
      shorter than asked for only if its source is used up; returned work goes first, the unit
      returned last from its start, and the unit leaves what remains. */
  lemma HandsOut(p: Pool, count: nat, workerId: nat)
    requires NothingEmpty(p) && count > 0 && p.next <= p.end
    requires Checkout(p, count, workerId).1.Some?
    ensures var (q, cw) := Checkout(p, count, workerId);
            var u := cw.value.unit;
            && cw.value.chunkId == p.nextChunkId && cw.value.workerId == workerId
            && q.inFlight == p.inFlight + [cw.value]
            && 0 < u.count <= count
            && Remaining(q) == Remaining(p) - u.count
            && (|p.returned| > 0 ==>
                  && q.next == p.next && u.start == p.returned[|p.returned| - 1].start
                  && (u.count < count ==> |q.returned| < |p.returned|)
                  && forall a: nat :: Cover(p.returned, a)
                                      == Cover(q.returned, a) + if Contains(u, a) then 1 else 0)
            && (|p.returned| == 0 ==>
                  && u.start == p.next && q.next == u.start + u.count <= p.end
                  && q.returned == []
                  && (u.count < count ==> q.next == p.end))
  {
    hide Cover, SumUnits;
    if |p.returned| > 0 {
      var n := |p.returned| - 1;
      var last, rest := p.returned[n], p.returned[..n];
      assert p.returned == rest + [last];
      AppendUnit(rest, last);
      if last.count > count {
        AppendUnit(rest, WorkUnit(last.start + count, last.count - count));
      }
    }
  }

  /** In every run with positive checkouts: the pool refuses a positive checkout exactly when every
      index of the range is completed or in flight. */
  lemma RefusedInRunIff(start: nat, total: nat, events: seq<Event>, count: nat, workerId: nat)
    requires forall i :: 0 <= i < |events| ==> PositiveEvent(events[i])
    requires count > 0
    ensures var p, done := RunPool(Fresh(start, total), events),
                           RunSieved(Fresh(start, total), events);
            Checkout(p, count, workerId).1.None? <==>
            forall a: nat :: start <= a < start + total ==>
              a in done || Cover(Units(p.inFlight), a) > 0
  {
    hide Partition, Conserved, IdsOk, Cover, Units, RunPool, RunSieved, Checkout, NothingEmpty;
    var p := RunPool(Fresh(start, total), events);
    var done := RunSieved(Fresh(start, total), events);
    EveryRunPartitions(start, total, events);
    RunNonEmpty(start, total, events);
    RefusedIff(p, count, workerId);
    RunEnd(start, total, events);
    NothingLeftIff(p, start, done);
  }

  lemma {:induction false} RunEnd(start: nat, total: nat, events: seq<Event>)
    ensures RunPool(Fresh(start, total), events).end == start + total
  {
    if |events| > 0 {
      hide RunPool;
      var before, e := events[..|events| - 1], events[|events| - 1];
      RunEnd(start, total, before);
      var p := RunPool(Fresh(start, total), before);
      assert Apply(p, e).end == p.end;
      LastEvent(Fresh(start, total), events);
    }
  }

  lemma LastEvent(p: Pool, events: seq<Event>)
    requires |events| > 0
    ensures RunPool(p, events) == Apply(RunPool(p, events[..|events| - 1]), events[|events| - 1])
  {
  }

  lemma NothingLeftIff(p: Pool, start: nat, completed: set<nat>)
    requires Partition(p, start, completed) && NothingEmpty(p)
    ensures Remaining(p) == 0 <==>
            forall a: nat :: start <= a < p.end ==>
              a in completed || Cover(Units(p.inFlight), a) > 0
  {
    hide Cover, SumUnits, Units;
    SumPositive(p.returned);
    if Remaining(p) == 0 {
      forall a: nat | start <= a < p.end
        ensures a in completed || Cover(Units(p.inFlight), a) > 0
      {
        NoUnits(a);
      }
    } else if |p.returned| > 0 {
      var u := p.returned[0];
      CoveredStart(p.returned, 0);
      assert !(u.start in completed || Cover(Units(p.inFlight), u.start) > 0);
      assert start <= u.start < p.next;
    } else {
      assert !(p.next in completed || Cover(Units(p.inFlight), p.next) > 0);
    }
  }

  lemma NoUnits(a: nat)
    ensures Cover([], a) == 0
  {
  }

  lemma {:induction false} NoSumNoCover(s: seq<WorkUnit>, a: nat)
    requires SumUnits(s) == 0
    ensures Cover(s, a) == 0
  {
    if |s| > 0 {
      NoSumNoCover(s[..|s| - 1], a);
    }
  }

  /** The pool with nothing remaining and nothing in flight has completed every index. */
  lemma DrainedPoolIsComplete(p: Pool, start: nat, completed: set<nat>)
    requires Partition(p, start, completed) && Conserved(p, start, completed)
    requires Remaining(p) == 0 && InFlight(p) == 0
    ensures AllCompleted(start, p.end, completed)
  {
    hide Cover, SumUnits, Units;
    forall a: nat | start <= a < p.end ensures a in completed {
      NoSumNoCover(p.returned, a);
      NoSumNoCover(Units(p.inFlight), a);
    }
  }

  /** From every state that a run with positive checkouts reaches, more checkouts and completions
      finish the whole range: no index is ever lost, whatever was returned or reclaimed before. */
  lemma {:induction false} CanFinish(start: nat, total: nat, events: seq<Event>, count: nat)
    returns (more: seq<Event>)
    requires forall i :: 0 <= i < |events| ==> PositiveEvent(events[i])
    requires count > 0
    ensures AllCompleted(start, start + total, RunSieved(Fresh(start, total), events + more))
    decreases var p := RunPool(Fresh(start, total), events);
              2 * Remaining(p) + InFlight(p)
  {
    hide Partition, Conserved, IdsOk, RunPool, RunSieved, Apply, NothingEmpty, Remaining, InFlight,
      AllCompleted;
    var p := RunPool(Fresh(start, total), events);
    EveryRunPartitions(start, total, events);
    RunNonEmpty(start, total, events);
    RunEnd(start, total, events);
    if Remaining(p) == 0 && InFlight(p) == 0 {
      more := [];
      DrainedPoolIsComplete(p, start, RunSieved(Fresh(start, total), events));
      assert events + more == events;
    } else {
      var e := if |p.inFlight| > 0 then EvComplete(p.inFlight[0].chunkId) else EvCheckout(count, 0);
      NextSmaller(p, start, RunSieved(Fresh(start, total), events), count, e);
      LastEvent(Fresh(start, total), events + [e]);
      assert (events + [e])[..|events + [e]| - 1] == events;
      var rest := CanFinish(start, total, events + [e], count);
      more := [e] + rest;
      assert events + more == events + [e] + rest;
    }
  }

  lemma NextSmaller(p: Pool, start: nat, completed: set<nat>, count: nat, e: Event)
    requires Partition(p, start, completed) && NothingEmpty(p) && count > 0
    requires !(Remaining(p) == 0 && InFlight(p) == 0)
    requires e == if |p.inFlight| > 0 then EvComplete(p.inFlight[0].chunkId)
                  else EvCheckout(count, 0)
    ensures 2 * Remaining(Apply(p, e)) + InFlight(Apply(p, e)) < 2 * Remaining(p) + InFlight(p)
  {
    hide Cover, SumUnits, Units, Partition;
    if |p.inFlight| > 0 {
      assert Find(p.inFlight, p.inFlight[0].chunkId) == 0;
      WithoutUnit(p.inFlight, 0);
      FirstNonEmpty(p);
    } else {
      NoFlight(p);
      RefusedIff(p, count, 0);
      PartitionBounds(p, start, completed);
      HandsOut(p, count, 0);
      var cw := Checkout(p, count, 0).1.value;
      assert p.inFlight + [cw] == [cw];
      OneFlight(cw);
    }
  }

  lemma FirstNonEmpty(p: Pool)
    requires NothingEmpty(p) && |p.inFlight| > 0
    ensures p.inFlight[0].unit.count > 0
  {
    assert Units(p.inFlight)[0].count > 0;
  }

  lemma NoFlight(p: Pool)
    requires |p.inFlight| == 0
    ensures InFlight(p) == 0
  {
  }

  lemma OneFlight(cw: CheckedOut)
    ensures SumUnits(Units([cw])) == cw.unit.count
  {
    UnitsOne(cw);
    SumOne(cw.unit);
  }

  lemma PartitionBounds(p: Pool, start: nat, completed: set<nat>)
    requires Partition(p, start, completed)
    ensures start <= p.next <= p.end
  {
  }

  // ---------------------------------------------------------------------------
  // Giving work back
  // ---------------------------------------------------------------------------

  /** Reclaiming a worker leaves exactly the chunks of the others in flight ... */
  lemma {:induction false} OthersStay(s: seq<CheckedOut>, w: nat)
    ensures forall x :: multiset(OfOthers(s, w))[x] == if x.workerId == w then 0 else multiset(s)[x]
  {
    if |s| > 0 {
      OthersStay(s[1..], w);
      assert s == [s[0]] + s[1..];
    }
  }

  /** ... and makes exactly its own units available again. */
  lemma {:induction false} OwnUnitsMove(s: seq<CheckedOut>, w: nat)
    ensures multiset(Units(s)) == multiset(Units(OfOthers(s, w))) + multiset(OfWorker(s, w))
  {
    if |s| == 0 {
      assert Units(s) == [];
    } else {
      OwnUnitsMove(s[1..], w);
      UnitsCons(s);
      if s[0].workerId != w {
        UnitsCons(OfOthers(s, w));
      }
      hide Units;
    }
  }

  lemma UnitsCons(s: seq<CheckedOut>)
    requires |s| > 0
    ensures Units(s) == [s[0].unit] + Units(s[1..])
  {
  }

  /** Returning a chunk takes one chunk with that id out of flight and makes its unit available;
      without such a chunk nothing happens. */
  lemma ReturnMoves(p: Pool, chunkId: nat) returns (x: CheckedOut)
    ensures var q := Return(p, chunkId);
            if exists i :: 0 <= i < |p.inFlight| && p.inFlight[i].chunkId == chunkId then
              && x.chunkId == chunkId
              && multiset(p.inFlight) == multiset(q.inFlight) + multiset{x}
              && q.returned == p.returned + [x.unit]
              && q.next == p.next && q.end == p.end
            else q == p
  {
    var i := Find(p.inFlight, chunkId);
    if i < |p.inFlight| {
      x := p.inFlight[i];
      assert p.inFlight == p.inFlight[..i] + [x] + p.inFlight[i + 1..];
    } else {
      x := CheckedOut(0, WorkUnit(0, 0), 0);
    }
  }

  // ---------------------------------------------------------------------------
  // The class
  // ---------------------------------------------------------------------------

  class WorkPool {
    var next: nat
    var end: nat
    var nextChunkId: nat
    var inFlight: seq<CheckedOut>
    var returned: seq<WorkUnit>

    function State(): Pool
      reads this
    {
      Pool(next, end, nextChunkId, inFlight, returned)
    }

    constructor (start: nat, total: nat)
      ensures State() == Fresh(start, total)
    {
      next, end, nextChunkId, inFlight, returned := start, start + total, 0, [], [];
    }

    method CheckoutWork(count: nat, workerId: nat) returns (result: Option<CheckedOut>)
      modifies this
      ensures (State(), result) == Checkout(old(State()), count, workerId)
    {
      var wu: WorkUnit;
      if |returned| > 0 {
        wu := returned[|returned| - 1];
        returned := returned[..|returned| - 1];
        if wu.count > count {
          var remainder := WorkUnit(wu.start + count, wu.count - count);
          returned := returned + [remainder];
          wu := WorkUnit(wu.start, count);
        }
      } else {
        if next >= end {
          return None;
        }
        var actual := Min(count, end - next);
        wu := WorkUnit(next, actual);
        next := next + actual;
      }
      var cw := CheckedOut(nextChunkId, wu, workerId);
      nextChunkId := (nextChunkId + 1) % WORD32;
      inFlight := inFlight + [cw];
      return Some(cw);
    }

    /** Index of the first chunk with this id. */
    method FindChunk(chunkId: nat) returns (i: nat)
      ensures i == Find(inFlight, chunkId)
    {
      i := 0;
      while i < |inFlight| && inFlight[i].chunkId != chunkId
        invariant 0 <= i <= |inFlight|
        invariant Find(inFlight, chunkId) == i + Find(inFlight[i..], chunkId)
      {
        assert inFlight[i..][1..] == inFlight[i + 1..];
        i := i + 1;
      }
    }

    method CompleteChunk(chunkId: nat)
      modifies this`inFlight
      ensures State() == Complete(old(State()), chunkId)
    {
      var i := FindChunk(chunkId);
      if i < |inFlight| {
        inFlight := Without(inFlight, i);
      }
    }

    method ReturnChunk(chunkId: nat) returns (count: nat)
      modifies this`inFlight, this`returned
      ensures State() == Return(old(State()), chunkId)
      ensures var i := Find(old(inFlight), chunkId);
              count == if i < |old(inFlight)| then old(inFlight)[i].unit.count else 0
    {
      var i := FindChunk(chunkId);
      count := 0;
      if i < |inFlight| {
        count := inFlight[i].unit.count;
        returned := returned + [inFlight[i].unit];
        inFlight := Without(inFlight, i);
      }
    }

    method ReclaimWork(workerId: nat) returns (reclaimed: nat)
      modifies this`inFlight, this`returned
      ensures State() == Reclaim(old(State()), workerId)
      ensures reclaimed == SumUnits(OfWorker(old(inFlight), workerId))
    {
      hide SumUnits;
      reclaimed := 0;
      assert SumUnits([]) == 0 by { SumNone(); }
      var kept: seq<CheckedOut> := [];
      var mine: seq<WorkUnit> := [];
      var i := 0;
      assert inFlight[0..] == inFlight;
      while i < |inFlight|
        invariant 0 <= i <= |inFlight|
        invariant inFlight == old(inFlight) && returned == old(returned) + mine
        invariant kept + OfOthers(inFlight[i..], workerId) == OfOthers(inFlight, workerId)
        invariant mine + OfWorker(inFlight[i..], workerId) == OfWorker(inFlight, workerId)
        invariant reclaimed == SumUnits(mine)
      {
        assert inFlight[i..][1..] == inFlight[i + 1..] && inFlight[i..][0] == inFlight[i];
        if inFlight[i].workerId == workerId {
          AppendUnit(mine, inFlight[i].unit);
          mine := mine + [inFlight[i].unit];
          returned := returned + [inFlight[i].unit];
          reclaimed := reclaimed + inFlight[i].unit.count;
        } else {
          kept := kept + [inFlight[i]];
        }
        i := i + 1;
      }
      assert inFlight[i..] == [] && mine + [] == mine && kept + [] == kept;
      inFlight := kept;
    }

    method ReclaimPartialChunk(chunkId: nat, consumed: nat)
      modifies this`inFlight, this`returned
      ensures State() == ReclaimPartial(old(State()), chunkId, consumed)
    {
      var i := FindChunk(chunkId);
      if i == |inFlight| {
        return;
      }
      var unit := inFlight[i].unit;
      var used := Min(consumed, unit.count);
      var remainder := unit.count - used;
      if remainder > 0 {
        returned := returned + [WorkUnit(unit.start + used, remainder)];
      }
      inFlight := Without(inFlight, i);
    }

    /** Unassigned indices: not yet issued plus returned. */
    method RemainingCount() returns (n: nat)
      ensures n == Remaining(State())
    {
      var linear := if next < end then end - next else 0;
      var ret := 0;
      for i := 0 to |returned|
        invariant ret == SumUnits(returned[..i])
      {
        assert returned[..i + 1][..i] == returned[..i];
        ret := ret + returned[i].count;
      }
      assert returned[..|returned|] == returned;
      n := linear + ret;
    }

    method InFlightCount() returns (n: nat)
      ensures n == InFlight(State())
    {
      ghost var units := Units(inFlight);
      n := 0;
      for i := 0 to |inFlight|
        invariant n == SumUnits(units[..i])
      {
        assert units[..i + 1][..i] == units[..i];
        n := n + inFlight[i].unit.count;
      }
      assert units[..|units|] == units;
    }

    /** The cursor a coordinator checkpoint records. */
    method CompletedPrefixCursor() returns (c: nat)
      ensures c == CompletedPrefix(State())
    {
      c := next;
      ghost var units := Units(inFlight);
      for i := 0 to |inFlight|
        invariant c == MinStart(units[..i], next)
      {
        assert units[..i + 1][..i] == units[..i];
        c := Min(c, inFlight[i].unit.start);
      }
      assert units[..|units|] == units;
      ghost var bound := c;
      for i := 0 to |returned|
        invariant c == MinStart(returned[..i], bound)
      {
        assert returned[..i + 1][..i] == returned[..i];
        c := Min(c, returned[i].start);
      }
      assert returned[..|returned|] == returned;
    }

    /** Restores the cursor of a fresh pool. */
    method SetCursor(cursor: nat)
      requires inFlight == [] && returned == [] && cursor <= end
      modifies this`next
      ensures State() == old(State()).(next := cursor)
    {
      next := cursor;
    }
  }

  /** A restored pool starts a new leg with everything below the cursor completed. */
  lemma RestoredInv(start: nat, total: nat, cursor: nat)
    requires start <= cursor <= start + total
    ensures Inv(Fresh(start, total).(next := cursor), start, Range(start, cursor - start), 0)
  {
  }
}
