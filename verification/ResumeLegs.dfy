/** Crash and resume of a cluster run: trimming each node's initial range by its recorded
    high-water, restoring the pool cursor, and what no number of legs can skip. */
module ResumeLegs {

  import opened Basics
  import opened WorkPools

  // ---------------------------------------------------------------------------
  // The two pure helpers
  // ---------------------------------------------------------------------------

  datatype ResumeTrim = ResumeTrim(start: nat, count: nat, effHw: nat)

  function ComputeResumeTrim(origStart: nat, origCount: nat, hw: nat, H: nat): ResumeTrim {
    var eff := Min(hw, origCount);
    var count := origCount - eff;
    if count == 0 && origCount >= H && H > 0 then
      ResumeTrim(origStart + (origCount - H), H, origCount - H)
    else ResumeTrim(origStart + eff, count, eff)
  }

  function ClusterResumeTopologyOk(loadedNodes: nat, currentNodes: nat, cursor: nat,
                                   overflowStart: nat, overflowEnd: nat): bool {
    if loadedNodes != currentNodes then false
    else if cursor < overflowStart then false
    else if cursor > overflowEnd then false
    else true
  }

  /** The applied offset and the count always make up the original range, the offset never
      exceeds the loaded high-water, and it gives up at most one hypercube of it. */
  lemma TrimSplitsRange(origStart: nat, origCount: nat, hw: nat, H: nat)
    ensures var t := ComputeResumeTrim(origStart, origCount, hw, H);
            && t.effHw + t.count == origCount
            && t.start == origStart + t.effHw
            && t.effHw <= hw
            && Min(hw, origCount) <= t.effHw + H
            && (t.effHw != Min(hw, origCount) ==> hw >= origCount && t.count == H)
  {
  }

  /** The count 0, which a range guard reads as "unbounded", comes out exactly for a fully
      sieved range shorter than one hypercube (an empty range is one). */
  lemma TrimZeroIff(origStart: nat, origCount: nat, hw: nat, H: nat)
    ensures ComputeResumeTrim(origStart, origCount, hw, H).count == 0 <==>
            hw >= origCount && (H == 0 || origCount < H)
  {
  }

  /** Ranges are handed out in whole hypercubes, so a nonempty one never trims to 0. */
  lemma AlignedTrimIsBounded(origStart: nat, windows: nat, hw: nat, H: nat)
    requires windows > 0 && H > 0
    ensures ComputeResumeTrim(origStart, windows * H, hw, H).count > 0
  {
    assert windows * H == (windows - 1) * H + H;
  }

  /** Trimming again by the offset just applied changes nothing. */
  lemma TrimIdempotent(origStart: nat, origCount: nat, hw: nat, H: nat)
    ensures var t := ComputeResumeTrim(origStart, origCount, hw, H);
            ComputeResumeTrim(origStart, origCount, t.effHw, H) == t
  {
  }

  // ---------------------------------------------------------------------------
  // A run: legs of sieving with checkpoints and crashes in between
  // ---------------------------------------------------------------------------

  /** Initial ranges per node, then the overflow pool. */
  datatype Config = Config(ranges: seq<WorkUnit>, overflowStart: nat, overflowSize: nat, H: nat)

  /** The cluster block of a checkpoint. */
  datatype Block = Block(cursor: nat, highWater: seq<nat>)

  /** What one leg holds per node: the trimmed assignment, the a-values consumed of it, whether
      it has reported, and the high-water the coordinator would record. */
  datatype Node = Node(trim: ResumeTrim, consumed: nat, reported: bool, recorded: nat)

  /** A checkpoint together with the indices whose sieving preceded it. */
  datatype Saved = Saved(block: Block, done: set<nat>)

  /** `done`: indices whose sieving is part of the surviving history; `completed`: those of them
      the pool counts. */
  datatype World = World(
    nodes: seq<Node>,
    pool: Pool,
    completed: set<nat>,
    done: set<nat>,
    disk: Option<Saved>)

  datatype Event =
    | Sieve(node: nat, steps: nat)
    | Report(node: nat, consumed: nat)
    | PoolEvent(e: WorkPools.Event)
    | Save
    | Crash

  function StartNode(unit: WorkUnit, hw: nat, H: nat): Node {
    var t := ComputeResumeTrim(unit.start, unit.count, hw, H);
    Node(t, 0, false, t.effHw)
  }

  /** On a first start nothing is trimmed. */
  function FreshNode(unit: WorkUnit): Node {
    Node(ResumeTrim(unit.start, unit.count, 0), 0, false, 0)
  }

  function FreshNodes(c: Config): seq<Node> {
    seq(|c.ranges|, i requires 0 <= i < |c.ranges| => FreshNode(c.ranges[i]))
  }

  function ResumedNodes(c: Config, hw: seq<nat>): seq<Node>
    requires |hw| == |c.ranges|
  {
    seq(|c.ranges|, i requires 0 <= i < |c.ranges| => StartNode(c.ranges[i], hw[i], c.H))
  }

  function PoolOf(c: Config): Pool {
    Fresh(c.overflowStart, c.overflowSize)
  }

  ghost function Begin(c: Config, disk: Option<Saved>): World {
    World(FreshNodes(c), PoolOf(c), {}, {}, disk)
  }

  predicate Accepts(c: Config, b: Block) {
    ClusterResumeTopologyOk(|b.highWater|, |c.ranges|, b.cursor, c.overflowStart,
                            c.overflowStart + c.overflowSize)
  }

  /** A new leg: from the checkpoint if the guard accepts it, from scratch otherwise. */
  ghost function Resume(c: Config, disk: Option<Saved>): World {
    if disk.Some? && Accepts(c, disk.value.block) then
      var s := disk.value;
      World(ResumedNodes(c, s.block.highWater), PoolOf(c).(next := s.block.cursor),
            Range(c.overflowStart, s.block.cursor - c.overflowStart), s.done, disk)
    else Begin(c, disk)
  }

  function Recorded(nodes: seq<Node>): (r: seq<nat>)
    ensures |r| == |nodes|
    ensures forall i :: 0 <= i < |r| ==> r[i] == nodes[i].recorded
  {
    seq(|nodes|, i requires 0 <= i < |nodes| => nodes[i].recorded)
  }

  /** A node reports its consumed count once per leg; the report may lag behind the sieving. */
  function ReportTo(n: Node, consumed: nat, cap: nat): Node {
    if n.reported || consumed > n.consumed then n
    else n.(reported := true, recorded := Min(n.trim.effHw + consumed, cap))
  }

  ghost function Step(c: Config, w: World, e: Event): World {
    match e
    case Sieve(i, steps) =>
      if i >= |w.nodes| then w
      else
        var n := w.nodes[i];
        w.(nodes := w.nodes[i := n.(consumed := n.consumed + steps)],
           done := w.done + Range(n.trim.start + n.consumed, steps))
    case Report(i, consumed) =>
      if i >= |w.nodes| || |w.nodes| != |c.ranges| then w
      else w.(nodes := w.nodes[i := ReportTo(w.nodes[i], consumed, c.ranges[i].count)])
    case PoolEvent(pe) =>
      var s := Sieved(w.pool, pe);
      w.(pool := Apply(w.pool, pe), completed := w.completed + s, done := w.done + s)
    case Save =>
      w.(disk := Some(Saved(Block(CompletedPrefix(w.pool), Recorded(w.nodes)), w.done)))
    case Crash => Resume(c, w.disk)
  }

  ghost function Run(c: Config, events: seq<Event>): World {
    if |events| == 0 then Begin(c, None)
    else Step(c, Run(c, events[..|events| - 1]), events[|events| - 1])
  }

  // ---------------------------------------------------------------------------
  // The invariant
  // ---------------------------------------------------------------------------

  ghost predicate AllDone(done: set<nat>, start: nat, count: nat) {
    forall a :: start <= a < start + count ==> a in done
  }

  /** The trim fits the range, everything up to offset plus consumed is sieved, and no more
      than that is recorded. */
  ghost predicate NodeOk(n: Node, unit: WorkUnit, done: set<nat>) {
    && n.trim.effHw + n.trim.count == unit.count
    && n.trim.start == unit.start + n.trim.effHw
    && AllDone(done, unit.start, n.trim.effHw + n.consumed)
    && n.recorded <= n.trim.effHw + n.consumed
    && n.recorded <= unit.count
  }

  ghost predicate NodesOk(nodes: seq<Node>, c: Config, done: set<nat>) {
    && |nodes| == |c.ranges|
    && forall i :: 0 <= i < |nodes| ==> NodeOk(nodes[i], c.ranges[i], done)
  }

  /** Every unit lies in the issued part of the pool. */
  ghost predicate Bounded(p: Pool, start: nat) {
    && start <= p.next <= p.end
    && (forall i :: 0 <= i < |p.inFlight| ==> UnitIn(p.inFlight[i].unit, start, p.next))
    && forall i :: 0 <= i < |p.returned| ==> UnitIn(p.returned[i], start, p.next)
  }

  predicate UnitIn(u: WorkUnit, start: nat, next: nat) {
    start <= u.start && u.start + u.count <= next
  }

  ghost predicate PoolOk(p: Pool, c: Config, completed: set<nat>) {
    && (exists issued: nat :: WorkPools.Inv(p, c.overflowStart, completed, issued))
    && Bounded(p, c.overflowStart)
    && p.end == c.overflowStart + c.overflowSize
  }

  /** A checkpoint never claims an index that was not sieved before it. */
  ghost predicate SavedOk(s: Saved, c: Config) {
    && |s.block.highWater| == |c.ranges|
    && (forall i :: 0 <= i < |c.ranges| ==>
          && s.block.highWater[i] <= c.ranges[i].count
          && AllDone(s.done, c.ranges[i].start, s.block.highWater[i]))
    && c.overflowStart <= s.block.cursor <= c.overflowStart + c.overflowSize
    && AllDone(s.done, c.overflowStart, s.block.cursor - c.overflowStart)
  }

  ghost predicate Inv(w: World, c: Config) {
    && NodesOk(w.nodes, c, w.done)
    && PoolOk(w.pool, c, w.completed)
    && w.completed <= w.done
    && (w.disk.Some? ==> SavedOk(w.disk.value, c))
  }

  // ---------------------------------------------------------------------------
  // Pool bounds
  // ---------------------------------------------------------------------------

  lemma {:induction false} WorkerUnits(s: seq<CheckedOut>, w: nat, start: nat, next: nat)
    requires forall i :: 0 <= i < |s| ==> UnitIn(s[i].unit, start, next)
    ensures forall i :: 0 <= i < |OfWorker(s, w)| ==> UnitIn(OfWorker(s, w)[i], start, next)
    ensures forall i :: 0 <= i < |OfOthers(s, w)| ==> UnitIn(OfOthers(s, w)[i].unit, start, next)
  {
    if |s| > 0 {
      WorkerUnits(s[1..], w, start, next);
    }
  }

  lemma CheckoutBounded(p: Pool, start: nat, count: nat, workerId: nat)
    requires Bounded(p, start)
    ensures Bounded(Checkout(p, count, workerId).0, start)
  {
  }

  lemma EventBounded(p: Pool, start: nat, e: WorkPools.Event)
    requires Bounded(p, start)
    ensures Bounded(Apply(p, e), start) && Apply(p, e).end == p.end
  {
    match e
    case EvCheckout(count, workerId) =>
      CheckoutBounded(p, start, count, workerId);
    case EvReclaim(workerId) =>
      WorkerUnits(p.inFlight, workerId, start, p.next);
    case _ =>
  }

  lemma PoolStep(p: Pool, c: Config, completed: set<nat>, e: WorkPools.Event)
    requires PoolOk(p, c, completed)
    ensures PoolOk(Apply(p, e), c, completed + Sieved(p, e))
  {
    hide WorkPools.Inv, Bounded, Apply, Sieved;
    EventBounded(p, c.overflowStart, e);
    var issued: nat :| WorkPools.Inv(p, c.overflowStart, completed, issued);
    EventKeeps(p, c.overflowStart, completed, issued, e);
  }

  /** The cursor a checkpoint records lies in the pool's range. */
  lemma PrefixInPool(p: Pool, start: nat)
    requires Bounded(p, start)
    ensures start <= CompletedPrefix(p) <= p.end
  {
  }

  // ---------------------------------------------------------------------------
  // Every event keeps the invariant
  // ---------------------------------------------------------------------------

  lemma NodesGrow(nodes: seq<Node>, c: Config, done: set<nat>, more: set<nat>)
    requires NodesOk(nodes, c, done)
    ensures NodesOk(nodes, c, done + more)
  {
    forall i | 0 <= i < |nodes| ensures NodeOk(nodes[i], c.ranges[i], done + more) {
      assert NodeOk(nodes[i], c.ranges[i], done);
    }
  }

  lemma NodeReplaced(nodes: seq<Node>, c: Config, done: set<nat>, i: nat, n: Node)
    requires NodesOk(nodes, c, done) && i < |nodes| && NodeOk(n, c.ranges[i], done)
    ensures NodesOk(nodes[i := n], c, done)
  {
    hide NodeOk;
  }

  lemma NodeSieves(n: Node, unit: WorkUnit, done: set<nat>, steps: nat)
    requires NodeOk(n, unit, done)
    ensures NodeOk(n.(consumed := n.consumed + steps), unit,
                   done + Range(n.trim.start + n.consumed, steps))
  {
  }

  lemma SieveKeeps(w: World, c: Config, i: nat, steps: nat)
    requires Inv(w, c)
    ensures Inv(Step(c, w, Sieve(i, steps)), c)
  {
    hide PoolOk, SavedOk, NodeOk, Range;
    if i < |w.nodes| {
      var n := w.nodes[i];
      var more := Range(n.trim.start + n.consumed, steps);
      NodesGrow(w.nodes, c, w.done, more);
      NodeSieves(n, c.ranges[i], w.done, steps);
      NodeReplaced(w.nodes, c, w.done + more, i, n.(consumed := n.consumed + steps));
      hide NodesOk;
      assert w.completed <= w.done + more;
    }
  }

  lemma ReportKeeps(w: World, c: Config, i: nat, consumed: nat)
    requires Inv(w, c)
    ensures Inv(Step(c, w, Report(i, consumed)), c)
  {
    hide PoolOk, SavedOk;
    if i < |w.nodes| {
      assert NodeOk(w.nodes[i], c.ranges[i], w.done);
    }
  }

  lemma PoolKeeps(w: World, c: Config, e: WorkPools.Event)
    requires Inv(w, c)
    ensures Inv(Step(c, w, PoolEvent(e)), c)
  {
    hide NodesOk, PoolOk, SavedOk, Apply, Sieved;
    NodesGrow(w.nodes, c, w.done, Sieved(w.pool, e));
    PoolStep(w.pool, c, w.completed, e);
  }

  lemma SaveKeeps(w: World, c: Config)
    requires Inv(w, c)
    ensures Inv(Step(c, w, Save), c)
  {
    hide Partition, Conserved, Bounded, CompletedPrefix;
    PrefixIsCompleted(w.pool, c.overflowStart, w.completed);
    PrefixInPool(w.pool, c.overflowStart);
    assert AllCompleted(c.overflowStart, CompletedPrefix(w.pool), w.completed);
    forall i | 0 <= i < |c.ranges|
      ensures w.nodes[i].recorded <= c.ranges[i].count
      ensures AllDone(w.done, c.ranges[i].start, w.nodes[i].recorded)
    {
      assert NodeOk(w.nodes[i], c.ranges[i], w.done);
    }
  }

  lemma BeginInv(c: Config, disk: Option<Saved>)
    requires disk.Some? ==> SavedOk(disk.value, c)
    ensures Inv(Begin(c, disk), c)
  {
    hide SavedOk, Partition, Conserved;
    FreshInv(c.overflowStart, c.overflowSize);
  }

  lemma ResumeNodesOk(c: Config, s: Saved)
    requires SavedOk(s, c)
    ensures NodesOk(ResumedNodes(c, s.block.highWater), c, s.done)
  {
    hide ComputeResumeTrim;
    forall i | 0 <= i < |c.ranges|
      ensures NodeOk(StartNode(c.ranges[i], s.block.highWater[i], c.H), c.ranges[i], s.done)
    {
      TrimSplitsRange(c.ranges[i].start, c.ranges[i].count, s.block.highWater[i], c.H);
      assert AllDone(s.done, c.ranges[i].start, s.block.highWater[i]);
    }
  }

  lemma CrashKeeps(w: World, c: Config)
    requires Inv(w, c)
    ensures Inv(Step(c, w, Crash), c)
  {
    hide NodesOk, Partition, Conserved, Cover;
    if w.disk.Some? && Accepts(c, w.disk.value.block) {
      var s := w.disk.value;
      ResumeNodesOk(c, s);
      RestoredInv(c.overflowStart, c.overflowSize, s.block.cursor);
    } else {
      BeginInv(c, w.disk);
    }
  }

  lemma StepKeeps(w: World, c: Config, e: Event)
    requires Inv(w, c)
    ensures Inv(Step(c, w, e), c)
  {
    hide Inv, Step;
    match e
    case Sieve(i, steps) => SieveKeeps(w, c, i, steps);
    case Report(i, consumed) => ReportKeeps(w, c, i, consumed);
    case PoolEvent(pe) => PoolKeeps(w, c, pe);
    case Save => SaveKeeps(w, c);
    case Crash => CrashKeeps(w, c);
  }

  lemma {:induction false} RunKeeps(c: Config, events: seq<Event>)
    ensures Inv(Run(c, events), c)
  {
    hide Inv, Step;
    if |events| == 0 {
      BeginInv(c, None);
    } else {
      RunKeeps(c, events[..|events| - 1]);
      StepKeeps(Run(c, events[..|events| - 1]), c, events[|events| - 1]);
    }
  }

  // ---------------------------------------------------------------------------
  // What no run can do
  // ---------------------------------------------------------------------------

  /** Over any number of legs, what a checkpoint records was sieved before it was written. */
  lemma RecordedIsSieved(c: Config, events: seq<Event>)
    ensures var d := Run(c, events).disk;
            d.Some? ==> SavedOk(d.value, c)
  {
    RunKeeps(c, events);
  }

  /** Resuming under the geometry that wrote a checkpoint is never rejected. */
  lemma OwnCheckpointIsAccepted(c: Config, events: seq<Event>)
    ensures var d := Run(c, events).disk;
            d.Some? ==> Accepts(c, d.value.block)
  {
    RunKeeps(c, events);
  }

  /** Each node consumed its assignment and the pool has nothing left. */
  ghost predicate Finished(w: World) {
    && (forall i :: 0 <= i < |w.nodes| ==> w.nodes[i].consumed >= w.nodes[i].trim.count)
    && Remaining(w.pool) == 0 && InFlight(w.pool) == 0
  }

  /** However many crashes and resumes a run went through, when it finishes every index of
      every initial range and of the pool has been sieved. */
  lemma NothingIsSkipped(c: Config, events: seq<Event>)
    requires Finished(Run(c, events))
    ensures var done := Run(c, events).done;
            && (forall i :: 0 <= i < |c.ranges| ==>
                  AllDone(done, c.ranges[i].start, c.ranges[i].count))
            && AllDone(done, c.overflowStart, c.overflowSize)
  {
    hide Partition, Conserved, Bounded, SavedOk, Remaining, InFlight;
    var w := Run(c, events);
    RunKeeps(c, events);
    DrainedPoolIsComplete(w.pool, c.overflowStart, w.completed);
    forall i | 0 <= i < |c.ranges|
      ensures AllDone(w.done, c.ranges[i].start, c.ranges[i].count)
    {
      assert NodeOk(w.nodes[i], c.ranges[i], w.done);
    }
  }

  /** A trimmed leg that is sieved to its end and reported records the whole original range. */
  lemma FullLegRecordsAll(c: Config, events: seq<Event>, i: nat, consumed: nat)
    requires i < |c.ranges|
    requires |Run(c, events).nodes| == |c.ranges|
    requires var n := Run(c, events).nodes[i];
             !n.reported && n.trim.count <= consumed <= n.consumed
    ensures Step(c, Run(c, events), Report(i, consumed)).nodes[i].recorded == c.ranges[i].count
  {
    RunKeeps(c, events);
    assert NodeOk(Run(c, events).nodes[i], c.ranges[i], Run(c, events).done);
  }

  /** Node 1 of this geometry sieves its range and the coordinator checkpoints. */
  lemma SecondNodeFirst(c: Config)
    requires c == Config([WorkUnit(0, 8), WorkUnit(8, 4)], 12, 4, 4)
    ensures Run(c, [Sieve(1, 4), Report(1, 4), Save]).disk
            == Some(Saved(Block(12, [0, 4]), Range(8, 4)))
  {
    hide Run, Range;
    NodeReports(c, 1, 4, [Sieve(1, 4), Report(1, 4)]);
    RunSnoc(c, [Sieve(1, 4), Report(1, 4)], Save);
    assert [Sieve(1, 4), Report(1, 4)] + [Save] == [Sieve(1, 4), Report(1, 4), Save];
    var w := Run(c, [Sieve(1, 4), Report(1, 4)]);
    assert Recorded(w.nodes) == [0, 4];
    assert CompletedPrefix(w.pool) == 12;
  }

  /** The guard compares the node count and the pool bounds only: a checkpoint of a run with
      other range boundaries passes it, and an index is skipped. */
  lemma GuardAloneCanSkip()
    ensures var c := Config([WorkUnit(0, 8), WorkUnit(8, 4)], 12, 4, 4);
            var d := Config([WorkUnit(0, 4), WorkUnit(4, 8)], 12, 4, 4);
            var disk := Run(c, [Sieve(1, 4), Report(1, 4), Save]).disk;
            && disk.Some? && Accepts(d, disk.value.block)
            && var w := Resume(d, disk);
               && w.nodes[1].trim == ResumeTrim(8, 4, 4) && 4 !in w.done
  {
    var c := Config([WorkUnit(0, 8), WorkUnit(8, 4)], 12, 4, 4);
    var d := Config([WorkUnit(0, 4), WorkUnit(4, 8)], 12, 4, 4);
    SecondNodeFirst(c);
    hide Run;
    var disk := Some(Saved(Block(12, [0, 4]), Range(8, 4)));
    assert Accepts(d, disk.value.block);
    assert Resume(d, disk).nodes == ResumedNodes(d, [0, 4]);
    assert ResumedNodes(d, [0, 4])[1] == StartNode(WorkUnit(4, 8), 4, 4);
  }

  // ---------------------------------------------------------------------------
  // Resuming under another geometry
  // ---------------------------------------------------------------------------

  /** The largest offset a resume applies to a range of `count` indices when the recorded
      high-water is at most `hw`. */
  function MaxOffset(hw: nat, count: nat, H: nat): nat {
    if hw < count then hw
    else if H > 0 && count >= H then count - 1
    else count
  }

  lemma OffsetAtMost(unit: WorkUnit, hw: nat, most: nat, H: nat)
    requires hw <= most
    ensures ComputeResumeTrim(unit.start, unit.count, hw, H).effHw <= MaxOffset(most, unit.count, H)
  {
  }

  lemma OffsetReached(unit: WorkUnit, hw: nat, most: nat, H: nat)
    requires hw <= MaxOffset(most, unit.count, H)
    ensures hw <= most && ComputeResumeTrim(unit.start, unit.count, hw, H).effHw == hw
  {
  }

  /** Whatever is trimmed from `after` was sieved as part of `before`, or lies between the two
      overflow starts. */
  ghost predicate RangeSafe(before: WorkUnit, after: WorkUnit, H: nat, lo: nat, hi: nat) {
    forall j :: 0 <= j < MaxOffset(before.count, after.count, H) ==>
      OffsetSafe(before, after, lo, hi, j)
  }

  predicate OffsetSafe(before: WorkUnit, after: WorkUnit, lo: nat, hi: nat, j: nat) {
    || after.start <= before.start <= after.start + j
    || lo <= after.start + j < hi
  }

  ghost predicate RangesSafe(c: Config, d: Config)
    requires |c.ranges| == |d.ranges|
  {
    forall i :: 0 <= i < |c.ranges| ==>
      RangeSafe(c.ranges[i], d.ranges[i], d.H, c.overflowStart, d.overflowStart)
  }

  /** Some cursor lies in both pools. */
  predicate PoolsMeet(c: Config, d: Config) {
    && c.overflowStart <= d.overflowStart + d.overflowSize
    && d.overflowStart <= c.overflowStart + c.overflowSize
  }

  /** The leg that resumes from the checkpoint takes nothing for sieved that is not. */
  ghost predicate ResumesSoundly(d: Config, s: Saved) {
    Inv(Resume(d, Some(s)).(disk := None), d)
  }

  /** Every checkpoint of every run under `c` that the guard accepts under `d` resumes soundly. */
  ghost predicate NeverSkips(c: Config, d: Config) {
    forall events :: Run(c, events).disk.Some? && Accepts(d, Run(c, events).disk.value.block)
                     ==> ResumesSoundly(d, Run(c, events).disk.value)
  }

  lemma OneRangeSafe(before: WorkUnit, after: WorkUnit, H: nat, lo: nat, hi: nat, hw: nat,
                     done: set<nat>)
    requires RangeSafe(before, after, H, lo, hi) && hw <= before.count
    requires AllDone(done, before.start, hw)
    requires forall a :: lo <= a < hi ==> a in done
    ensures NodeOk(StartNode(after, hw, H), after, done)
  {
    TrimSplitsRange(after.start, after.count, hw, H);
    OffsetAtMost(after, hw, before.count, H);
    hide ComputeResumeTrim, MaxOffset;
    var eff := ComputeResumeTrim(after.start, after.count, hw, H).effHw;
    forall a | after.start <= a < after.start + eff ensures a in done {
      assert OffsetSafe(before, after, lo, hi, a - after.start);
    }
  }

  lemma SafeResume(c: Config, d: Config, s: Saved)
    requires SavedOk(s, c) && Accepts(d, s.block)
    requires |c.ranges| == |d.ranges| && c.overflowStart <= d.overflowStart && RangesSafe(c, d)
    ensures ResumesSoundly(d, s)
  {
    hide RangeSafe, NodeOk, StartNode, AllDone, Partition, Conserved, Cover;
    assert forall a :: c.overflowStart <= a < s.block.cursor ==> a in s.done by {
      DoneBelow(s.done, c.overflowStart, s.block.cursor);
    }
    forall i | 0 <= i < |d.ranges|
      ensures NodeOk(StartNode(d.ranges[i], s.block.highWater[i], d.H), d.ranges[i], s.done)
    {
      OneRangeSafe(c.ranges[i], d.ranges[i], d.H, c.overflowStart, d.overflowStart,
                   s.block.highWater[i], s.done);
    }
    assert NodesOk(ResumedNodes(d, s.block.highWater), d, s.done);
    RestoredInv(d.overflowStart, d.overflowSize, s.block.cursor);
  }

  lemma DoneBelow(done: set<nat>, start: nat, cursor: nat)
    requires start <= cursor && AllDone(done, start, cursor - start)
    ensures forall a :: start <= a < cursor ==> a in done
  {
  }

  // Runs that reach the checkpoints which show the condition to be necessary.

  lemma RunSnoc(c: Config, events: seq<Event>, e: Event)
    ensures Run(c, events + [e]) == Step(c, Run(c, events), e)
  {
    assert (events + [e])[..|events|] == events;
  }

  function Zeros(n: nat): (z: seq<nat>)
    ensures |z| == n && forall i :: 0 <= i < n ==> z[i] == 0
  {
    seq(n, _ => 0)
  }

  lemma PoolPrefix(c: Config, n: nat) returns (events: seq<WorkPools.Event>)
    requires n <= c.overflowSize
    ensures RunPool(PoolOf(c), events) == Pool(c.overflowStart + n,
              c.overflowStart + c.overflowSize, if n == 0 then 0 else 1, [], [])
    ensures RunSieved(PoolOf(c), events) == Range(c.overflowStart, n)
  {
    events := [];
    if n > 0 {
      var e0, e1 := EvCheckout(n, 1), EvComplete(0);
      events := [e0, e1];
      var p0, x := PoolOf(c), CheckedOut(0, WorkUnit(c.overflowStart, n), 1);
      var p1 := Pool(c.overflowStart + n, c.overflowStart + c.overflowSize, 1, [x], []);
      assert [e0, e1][..1] == [e0] && [e0][..0] == [];
      assert RunPool(p0, []) == p0 && RunSieved(p0, []) == {};
      assert RunPool(p0, [e0]) == Apply(p0, e0) == p1;
      assert RunSieved(p0, [e0]) == {};
      assert Find([x], 0) == 0;
      assert Apply(p1, e1) == p1.(inFlight := []);
      assert Sieved(p1, e1) == Range(c.overflowStart, n);
    }
  }

  /** Pool events alone change the pool alone. */
  lemma {:induction false} PoolOnly(c: Config, before: seq<Event>, pe: seq<WorkPools.Event>)
    returns (events: seq<Event>)
    requires Run(c, before).pool == PoolOf(c)
    ensures var w, w' := Run(c, before), Run(c, events);
            && w'.nodes == w.nodes && w'.pool == RunPool(w.pool, pe)
            && w'.done == w.done + RunSieved(w.pool, pe)
    decreases |pe|
  {
    events := before;
    if |pe| > 0 {
      var m := |pe| - 1;
      events := PoolOnly(c, before, pe[..m]);
      hide Apply, Sieved;
      RunSnoc(c, events, PoolEvent(pe[m]));
      events := events + [PoolEvent(pe[m])];
    }
  }

  /** Node `i` sieves and reports `hw` indices, the pool completes its first `n`, and the
      coordinator saves. */
  lemma ReachCheckpoint(c: Config, i: nat, hw: nat, n: nat) returns (events: seq<Event>)
    requires i < |c.ranges| && hw <= c.ranges[i].count && n <= c.overflowSize
    ensures Run(c, events).disk
            == Some(Saved(Block(c.overflowStart + n, Zeros(|c.ranges|)[i := hw]),
                          Range(c.ranges[i].start, hw) + Range(c.overflowStart, n)))
  {
    hide Run, RunPool, RunSieved, Range;
    var before := [Sieve(i, hw), Report(i, hw)];
    NodeReports(c, i, hw, before);
    var pe := PoolPrefix(c, n);
    events := PoolOnly(c, before, pe);
    var w := Run(c, events);
    RunSnoc(c, events, Save);
    events := events + [Save];
    assert CompletedPrefix(w.pool) == c.overflowStart + n;
    assert Recorded(w.nodes) == Zeros(|c.ranges|)[i := hw];
  }

  lemma FirstSieve(c: Config, i: nat, hw: nat)
    requires i < |c.ranges|
    ensures var unit := c.ranges[i];
            Step(c, Begin(c, None), Sieve(i, hw))
            == World(FreshNodes(c)[i := FreshNode(unit).(consumed := hw)], PoolOf(c), {},
                     Range(unit.start, hw), None)
  {
    hide Range;
    var unit := c.ranges[i];
    assert {} + Range(unit.start, hw) == Range(unit.start, hw);
    assert FreshNodes(c)[i] == FreshNode(unit);
  }

  lemma FirstReport(c: Config, w: World, i: nat, hw: nat)
    requires i < |c.ranges| == |w.nodes| && hw <= c.ranges[i].count
    requires w.nodes[i] == FreshNode(c.ranges[i]).(consumed := hw)
    ensures Step(c, w, Report(i, hw))
            == w.(nodes := w.nodes[i := Node(FreshNode(c.ranges[i]).trim, hw, true, hw)])
  {
  }

  lemma NodeReports(c: Config, i: nat, hw: nat, events: seq<Event>)
    requires i < |c.ranges| && hw <= c.ranges[i].count
    requires events == [Sieve(i, hw), Report(i, hw)]
    ensures var w := Run(c, events);
            && w.nodes == FreshNodes(c)[i := Node(FreshNode(c.ranges[i]).trim, hw, true, hw)]
            && w.pool == PoolOf(c)
            && w.done == Range(c.ranges[i].start, hw)
  {
    var e0, e1 := Sieve(i, hw), Report(i, hw);
    assert events == [e0] + [e1] && [e0] == [] + [e0];
    assert Run(c, []) == Begin(c, None);
    hide Run, Step, Begin, Range, PoolOf, FreshNode;
    RunSnoc(c, [], e0);
    RunSnoc(c, [e0], e1);
    FirstSieve(c, i, hw);
    FirstReport(c, Run(c, [e0]), i, hw);
  }

  lemma UnsafeRange(c: Config, d: Config, i: nat)
    requires |c.ranges| == |d.ranges| && i < |c.ranges| && PoolsMeet(c, d)
    requires c.overflowStart <= d.overflowStart
    requires !RangeSafe(c.ranges[i], d.ranges[i], d.H, c.overflowStart, d.overflowStart)
    ensures !NeverSkips(c, d)
  {
    var before, after := c.ranges[i], d.ranges[i];
    var j :| 0 <= j < MaxOffset(before.count, after.count, d.H)
             && !OffsetSafe(before, after, c.overflowStart, d.overflowStart, j);
    OffsetReached(after, j + 1, before.count, d.H);
    var n := d.overflowStart - c.overflowStart;
    var events := ReachCheckpoint(c, i, j + 1, n);
    var s := Run(c, events).disk.value;
    hide Run, MaxOffset, Inv, Resume;
    UnsafeCheckpoint(c, d, i, j, s);
    assert Accepts(d, s.block);
  }

  lemma UnsafeCheckpoint(c: Config, d: Config, i: nat, j: nat, s: Saved)
    requires |c.ranges| == |d.ranges| && i < |c.ranges| && Accepts(d, s.block)
    requires c.overflowStart <= d.overflowStart
    requires s.done == Range(c.ranges[i].start, j + 1)
                       + Range(c.overflowStart, d.overflowStart - c.overflowStart)
    requires !OffsetSafe(c.ranges[i], d.ranges[i], c.overflowStart, d.overflowStart, j)
    requires |s.block.highWater| == |d.ranges| && s.block.highWater[i] == j + 1
    requires ComputeResumeTrim(d.ranges[i].start, d.ranges[i].count, j + 1, d.H).effHw == j + 1
    ensures !ResumesSoundly(d, s)
  {
    hide PoolOk, ComputeResumeTrim;
    var after := d.ranges[i];
    var node := StartNode(after, j + 1, d.H);
    var a := after.start + j;
    assert a !in s.done;
    assert !AllDone(s.done, after.start, j + 1);
    assert Resume(d, Some(s)).nodes[i] == node;
    assert !NodeOk(node, after, s.done);
  }

  lemma UnsafePool(c: Config, d: Config)
    requires |c.ranges| == |d.ranges| && PoolsMeet(c, d) && c.overflowStart > d.overflowStart
    ensures !NeverSkips(c, d)
  {
    RunSnoc(c, [], Save);
    var events := [] + [Save];
    var w := Begin(c, None);
    assert Run(c, []) == w;
    assert CompletedPrefix(w.pool) == c.overflowStart;
    var s := Run(c, events).disk.value;
    assert s.block.cursor == c.overflowStart && s.done == {};
    hide Run;
    assert Accepts(d, s.block);
    assert d.overflowStart in Resume(d, Some(s)).completed;
  }

  /** Exactly when a checkpoint of one geometry is safe under another. The guard rejects all of
      them if the node counts differ or the pools share no cursor; otherwise every accepted one
      resumes without skipping if and only if the pool does not start earlier and whatever a
      trim can cut off some node's range had been part of that node's old range or of the old
      pool's front. */
  lemma ForeignResumeIff(c: Config, d: Config)
    ensures NeverSkips(c, d) <==>
            || |c.ranges| != |d.ranges|
            || !PoolsMeet(c, d)
            || (c.overflowStart <= d.overflowStart && RangesSafe(c, d))
  {
    hide Run, RangeSafe, ResumesSoundly, SavedOk;
    if |c.ranges| == |d.ranges| && PoolsMeet(c, d) {
      if c.overflowStart > d.overflowStart {
        UnsafePool(c, d);
      } else if !RangesSafe(c, d) {
        var i :| 0 <= i < |c.ranges|
                 && !RangeSafe(c.ranges[i], d.ranges[i], d.H, c.overflowStart, d.overflowStart);
        UnsafeRange(c, d, i);
      } else {
        forall events | Run(c, events).disk.Some? && Accepts(d, Run(c, events).disk.value.block)
          ensures ResumesSoundly(d, Run(c, events).disk.value)
        {
          RecordedIsSieved(c, events);
          SafeResume(c, d, Run(c, events).disk.value);
        }
      }
    } else {
      forall events | Run(c, events).disk.Some?
        ensures !Accepts(d, Run(c, events).disk.value.block)
      {
        RecordedIsSieved(c, events);
        ForeignRejected(c, d, Run(c, events).disk.value);
      }
    }
  }

  lemma ForeignRejected(c: Config, d: Config, s: Saved)
    requires SavedOk(s, c) && (|c.ranges| != |d.ranges| || !PoolsMeet(c, d))
    ensures !Accepts(d, s.block)
  {
  }

  /** With equal overflow starts: a node is safe when one of its two ranges is empty, when both
      start at the same index, or when its new range is a single index that is always sieved
      again. */
  lemma SameOverflowIff(c: Config, d: Config)
    requires |c.ranges| == |d.ranges| && c.overflowStart == d.overflowStart
    ensures NeverSkips(c, d) <==>
            forall i :: 0 <= i < |c.ranges| ==>
              || c.ranges[i].count == 0 || d.ranges[i].count == 0
              || c.ranges[i].start == d.ranges[i].start
              || (d.ranges[i].count == 1 && d.H == 1)
  {
    hide NeverSkips, RangeSafe;
    ForeignResumeIff(c, d);
    forall i | 0 <= i < |c.ranges|
      ensures RangeSafe(c.ranges[i], d.ranges[i], d.H, c.overflowStart, d.overflowStart) <==>
              || c.ranges[i].count == 0 || d.ranges[i].count == 0
              || c.ranges[i].start == d.ranges[i].start
              || (d.ranges[i].count == 1 && d.H == 1)
    {
      RangeSafeIff(c.ranges[i], d.ranges[i], d.H, c.overflowStart);
    }
  }

  lemma RangeSafeIff(before: WorkUnit, after: WorkUnit, H: nat, lo: nat)
    ensures RangeSafe(before, after, H, lo, lo) <==>
            || before.count == 0 || after.count == 0 || before.start == after.start
            || (after.count == 1 && H == 1)
  {
    if RangeSafe(before, after, H, lo, lo) && MaxOffset(before.count, after.count, H) > 0 {
      assert OffsetSafe(before, after, lo, lo, 0);
    }
  }

  // ---------------------------------------------------------------------------
  // What a resume makes use of
  // ---------------------------------------------------------------------------

  /** A resume under the geometry that wrote the checkpoint gives up at most one hypercube of what
      is recorded for a node, and only if that is the whole range; the pool goes on at the recorded
      cursor. */
  lemma ResumeKeepsProgress(c: Config, events: seq<Event>)
    requires Run(c, events).disk.Some?
    ensures var (b, w) := (Run(c, events).disk.value.block, Step(c, Run(c, events), Crash));
            && w.pool.next == b.cursor && |w.nodes| == |c.ranges| == |b.highWater|
            && forall i :: 0 <= i < |c.ranges| ==>
                 && w.nodes[i].trim.effHw + c.H >= b.highWater[i]
                 && (b.highWater[i] < c.ranges[i].count ==>
                       w.nodes[i].trim.effHw == b.highWater[i])
  {
    hide Run;
    RecordedIsSieved(c, events);
    OwnCheckpointIsAccepted(c, events);
    var b := Run(c, events).disk.value.block;
    forall i | 0 <= i < |c.ranges|
      ensures var t := ComputeResumeTrim(c.ranges[i].start, c.ranges[i].count, b.highWater[i], c.H);
              && t.effHw + c.H >= b.highWater[i]
              && (b.highWater[i] < c.ranges[i].count ==> t.effHw == b.highWater[i])
    {
      TrimSplitsRange(c.ranges[i].start, c.ranges[i].count, b.highWater[i], c.H);
    }
  }

  /** The first report of a leg records all that was applied and reported, up to the whole range. */
  lemma ReportRecordsAll(c: Config, w: World, i: nat, consumed: nat)
    requires i < |w.nodes| == |c.ranges|
    requires !w.nodes[i].reported && consumed <= w.nodes[i].consumed
    ensures var n := Step(c, w, Report(i, consumed)).nodes[i];
            && n.recorded <= c.ranges[i].count
            && (n.recorded == w.nodes[i].trim.effHw + consumed || n.recorded == c.ranges[i].count)
            && n.recorded <= w.nodes[i].trim.effHw + consumed
  {
  }
}
