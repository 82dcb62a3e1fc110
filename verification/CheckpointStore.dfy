/** The checkpoint directory: a writer that can be killed or fail after any step, and the loader
    that picks the freshest generation. */
module CheckpointStore {

  import opened Basics
  import opened Bytes
  import opened Relations
  import opened RelationFile
  import opened CheckpointFile

  datatype Name = Live | Prev | Tmp

  type Disk = map<Name, seq<byte>>

  /** What one checkpoint is made of. */
  datatype Snapshot = Snapshot(
    full: Batch,
    partials: Batch,
    meta: Meta,
    trailer: Trailer,
    cluster: Option<ClusterBlock>)
  {
    ghost predicate Valid() {
      Writable(full, partials, meta, trailer, cluster)
    }

    ghost function Payload(): seq<byte>
      requires Valid()
    {
      SerializeV2(full, partials, meta)
    }

    ghost function Tail(): seq<byte>
      requires Valid()
    {
      PutTail(trailer, cluster, |Payload()|)
    }

    ghost function File(): (f: seq<byte>)
      requires Valid()
      ensures f == Payload() + Tail()
    {
      CheckpointBytes(full, partials, meta, trailer, cluster)
    }

    /** The announced cluster block is there. */
    predicate Proper() {
      Announced(trailer, cluster)
    }

    /** What a load of this snapshot returns. */
    function Content(): Loaded
      requires Proper() && meta.r <= |meta.auxPrimes| && meta.r <= |meta.tS|
    {
      Loaded(trailer, KeptBlock(trailer, cluster), KeptContents(full, partials, meta))
    }

    /** What its file gives: the content, unless an announced cluster block is missing. */
    ghost function Loads(): Option<Loaded>
      requires Valid()
    {
      if Proper() then Some(Content()) else None
    }
  }

  /** The freshest loadable generation: the live file, else the previous one. */
  function LoadLatest(disk: Disk): Option<Loaded> {
    if Live in disk && ReadCheckpoint(disk[Live]).Some? then ReadCheckpoint(disk[Live])
    else if Prev in disk then ReadCheckpoint(disk[Prev])
    else None
  }

  // ---------------------------------------------------------------------------
  // The writer, one system call at a time
  // ---------------------------------------------------------------------------

  datatype Writer =
    | Idle
    | Cleaned(s: Snapshot)
    | Payload(s: Snapshot, done: nat)
    | Tail(s: Snapshot, done: nat)
    | Synced(s: Snapshot)
    | Rotated(s: Snapshot)

  /** `committed`: the snapshots whose write went through, oldest first. */
  datatype World = World(disk: Disk, writer: Writer, committed: seq<Snapshot>)

  datatype Step =
    | Begin(s: Snapshot, removed: bool)
    | WritePayload(upTo: nat)
    | WriteTail(upTo: nat)
    | Sync
    | Rotate(ok: bool)
    | Commit
    | Kill

  function RenameLive(disk: Disk): Disk
    requires Live in disk
  {
    (disk - {Live})[Prev := disk[Live]]
  }

  function RenameTmp(disk: Disk): Disk
    requires Tmp in disk
  {
    (disk - {Tmp})[Live := disk[Tmp]]
  }

  /** A step that does not fit the writer's state does nothing. A failing system call makes the
      writer return, which leaves the directory as a kill does. */
  ghost function Next(w: World, e: Step): World {
    match e
    case Begin(s, removed) =>
      if w.writer.Idle? && s.Valid()
      then w.(disk := if removed then w.disk - {Tmp} else w.disk, writer := Cleaned(s))
      else w
    case WritePayload(upTo) =>
      if w.writer.Cleaned? && w.writer.s.Valid() && upTo <= |w.writer.s.Payload()|
      then PutPayload(w, w.writer.s, upTo)
      else if w.writer.Payload? && w.writer.s.Valid()
           && w.writer.done <= upTo <= |w.writer.s.Payload()|
      then PutPayload(w, w.writer.s, upTo)
      else w
    case WriteTail(upTo) =>
      if w.writer.Payload? && w.writer.s.Valid() && w.writer.done == |w.writer.s.Payload()|
         && upTo <= |w.writer.s.Tail()|
      then AppendTail(w, w.writer.s, upTo)
      else if w.writer.Tail? && w.writer.s.Valid() && w.writer.done <= upTo <= |w.writer.s.Tail()|
      then AppendTail(w, w.writer.s, upTo)
      else w
    case Sync =>
      if w.writer.Tail? && w.writer.s.Valid() && w.writer.done == |w.writer.s.Tail()|
      then w.(writer := Synced(w.writer.s)) else w
    case Rotate(ok) =>
      if w.writer.Synced?
      then w.(disk := if ok && Live in w.disk then RenameLive(w.disk) else w.disk,
              writer := Rotated(w.writer.s))
      else w
    case Commit =>
      if w.writer.Rotated? && Tmp in w.disk
      then World(RenameTmp(w.disk), Idle, w.committed + [w.writer.s])
      else w
    case Kill => w.(writer := Idle)
  }

  ghost function PutPayload(w: World, s: Snapshot, upTo: nat): World
    requires s.Valid() && upTo <= |s.Payload()|
  {
    w.(disk := w.disk[Tmp := s.Payload()[..upTo]], writer := Payload(s, upTo))
  }

  ghost function AppendTail(w: World, s: Snapshot, upTo: nat): World
    requires s.Valid() && upTo <= |s.Tail()|
  {
    w.(disk := w.disk[Tmp := s.Payload() + s.Tail()[..upTo]], writer := Tail(s, upTo))
  }

  /** A run starts in a directory without generations; a leftover temporary may be there. */
  ghost function Run(stale: Disk, steps: seq<Step>): World {
    if |steps| == 0 then World(stale - {Live, Prev}, Idle, [])
    else Next(Run(stale, steps[..|steps| - 1]), steps[|steps| - 1])
  }

  // ---------------------------------------------------------------------------
  // The invariant
  // ---------------------------------------------------------------------------

  /** The writer's snapshot is sound, and once it is synced the temporary is the whole file. */
  ghost predicate WriterOk(w: World) {
    && (!w.writer.Idle? ==> w.writer.s.Valid())
    && (w.writer.Tail? ==> w.writer.done <= |w.writer.s.Tail()| && Tmp in w.disk
                           && w.disk[Tmp] == w.writer.s.Payload() + w.writer.s.Tail()[..w.writer.done])
    && (w.writer.Synced? || w.writer.Rotated? ==>
          Tmp in w.disk && w.disk[Tmp] == w.writer.s.File())
  }

  /** The previous file, when there is one, is an older committed snapshot. */
  ghost predicate PrevIsOlder(disk: Disk, committed: seq<Snapshot>)
    requires forall i :: 0 <= i < |committed| ==> committed[i].Valid()
  {
    Prev in disk ==> exists i :: 0 <= i < |committed| - 1 && disk[Prev] == committed[i].File()
  }

  /** The newest generation is the last committed one: in the live file, with an older one in the
      previous file, or, between the two renames, in the previous one. */
  ghost predicate NewestOk(disk: Disk, committed: seq<Snapshot>) {
    && (forall i :: 0 <= i < |committed| ==> committed[i].Valid())
    && if |committed| == 0 then Live !in disk && Prev !in disk
       else
         var last := committed[|committed| - 1];
         if Live in disk then disk[Live] == last.File() && PrevIsOlder(disk, committed)
         else Prev in disk && disk[Prev] == last.File()
  }

  ghost predicate Inv(w: World) {
    WriterOk(w) && NewestOk(w.disk, w.committed)
  }

  lemma TailStepKeeps(w: World, upTo: nat)
    requires Inv(w)
    ensures Inv(Next(w, WriteTail(upTo)))
  {
    hide Snapshot.Payload, Snapshot.Tail, Snapshot.File, Snapshot.Valid, Snapshot.Proper;
  }

  lemma CommitKeepsOlder(w: World, s: Snapshot)
    requires Inv(w) && s.Valid()
    ensures var committed := w.committed + [s];
            forall i :: 0 <= i < |committed| ==> committed[i].Valid()
    ensures PrevIsOlder(w.disk, w.committed + [s])
  {
    hide Snapshot.Payload, Snapshot.Tail, Snapshot.File, Snapshot.Valid, WriterOk;
    var n := |w.committed|;
    if Prev in w.disk {
      if Live in w.disk {
        var i :| 0 <= i < n - 1 && w.disk[Prev] == w.committed[i].File();
        assert (w.committed + [s])[i] == w.committed[i];
      } else {
        assert (w.committed + [s])[n - 1] == w.committed[n - 1];
      }
    }
  }

  lemma StepKeeps(w: World, e: Step)
    requires Inv(w)
    ensures Inv(Next(w, e))
  {
    hide Snapshot.Payload, Snapshot.Tail, Snapshot.File, Snapshot.Valid, Snapshot.Proper;
    match e
    case WriteTail(upTo) => TailStepKeeps(w, upTo);
    case Sync =>
      if w.writer.Tail? && w.writer.s.Valid() && w.writer.done == |w.writer.s.Tail()| {
        assert w.writer.s.Tail()[..w.writer.done] == w.writer.s.Tail();
      }
    case Commit =>
      if w.writer.Rotated? {
        CommitKeepsOlder(w, w.writer.s);
        assert PrevIsOlder(Next(w, e).disk, w.committed + [w.writer.s]);
      }
    case _ =>
  }

  lemma {:induction false} RunKeeps(stale: Disk, steps: seq<Step>)
    ensures Inv(Run(stale, steps))
  {
    hide Inv, Next;
    if |steps| == 0 {
      assert Inv(World(stale - {Live, Prev}, Idle, [])) by {
        StartInv(stale);
      }
    } else {
      RunKeeps(stale, steps[..|steps| - 1]);
      StepKeeps(Run(stale, steps[..|steps| - 1]), steps[|steps| - 1]);
    }
  }

  lemma StartInv(stale: Disk)
    ensures Inv(World(stale - {Live, Prev}, Idle, []))
  {
  }

  /** A written file loads its snapshot, or nothing when the announced block is missing. */
  lemma SnapshotReads(s: Snapshot)
    requires s.Valid()
    ensures ReadCheckpoint(s.File()) == s.Loads()
  {
    hide ReadCheckpoint, CheckpointBytes;
    WrittenIsReadIff(s.full, s.partials, s.meta, s.trailer, s.cluster);
  }

  lemma SnapshotsRead(committed: seq<Snapshot>)
    requires forall i :: 0 <= i < |committed| ==> committed[i].Valid()
    ensures forall i :: 0 <= i < |committed| ==>
              ReadCheckpoint(committed[i].File()) == committed[i].Loads()
  {
    hide ReadCheckpoint, Snapshot.File, Snapshot.Loads, Snapshot.Valid;
    forall i | 0 <= i < |committed|
      ensures ReadCheckpoint(committed[i].File()) == committed[i].Loads()
    {
      SnapshotReads(committed[i]);
    }
  }

  /** Killed after any step, over any sequence of writes, failures and kills, the directory loads
      exactly the last committed snapshot, and nothing if none was ever committed. Only a
      snapshot that announces a cluster block it does not have is never loaded: then the loader
      returns what the previous file gives, which is an older committed snapshot. */
  lemma LatestSurvives(stale: Disk, steps: seq<Step>)
    ensures var w := Run(stale, steps);
            if |w.committed| == 0 then LoadLatest(w.disk) == None
            else
              var last := w.committed[|w.committed| - 1];
              && last.Valid()
              && if last.Proper() then LoadLatest(w.disk) == last.Loads()
                 else if Live in w.disk && Prev in w.disk then
                   LoadLatest(w.disk) == ReadCheckpoint(w.disk[Prev])
                   && LoadsOlder(w)
                 else LoadLatest(w.disk) == None
  {
    hide ReadCheckpoint, Next, Run, WriterOk, Snapshot.File, Snapshot.Content, Snapshot.Valid,
      Snapshot.Payload, Snapshot.Tail, Snapshot.Proper;
    RunKeeps(stale, steps);
    SnapshotsRead(Run(stale, steps).committed);
  }

  /** Some snapshot committed before the last one is what loads. */
  ghost predicate LoadsOlder(w: World) {
    exists i :: 0 <= i < |w.committed| - 1 && w.committed[i].Valid()
                && LoadLatest(w.disk) == w.committed[i].Loads()
  }

  // ---------------------------------------------------------------------------
  // Runs in which no rename of the live file fails
  // ---------------------------------------------------------------------------

  ghost predicate NoFailedRotation(steps: seq<Step>) {
    Rotate(false) !in steps
  }

  /** Next to a live file lies exactly the generation before it. */
  ghost predicate Adjacent(w: World) {
    && (w.writer.Rotated? ==> Live !in w.disk)
    && (Live in w.disk ==>
          if |w.committed| < 2 then Prev !in w.disk
          else Prev in w.disk && w.committed[|w.committed| - 2].Valid()
               && w.disk[Prev] == w.committed[|w.committed| - 2].File())
  }

  lemma StepKeepsAdjacent(w: World, e: Step)
    requires Inv(w) && Adjacent(w) && e != Rotate(false)
    ensures Adjacent(Next(w, e))
  {
    hide Snapshot.Payload, Snapshot.Tail, Snapshot.File, Snapshot.Valid;
  }

  lemma {:induction false} RunKeepsAdjacent(stale: Disk, steps: seq<Step>)
    requires NoFailedRotation(steps)
    ensures Adjacent(Run(stale, steps))
  {
    hide Inv, Next;
    if |steps| > 0 {
      RunKeeps(stale, steps[..|steps| - 1]);
      RunKeepsAdjacent(stale, steps[..|steps| - 1]);
      StepKeepsAdjacent(Run(stale, steps[..|steps| - 1]), steps[|steps| - 1]);
    }
  }

  /** If no rename failed, an unloadable live file costs exactly one generation. */
  lemma OneGenerationBack(stale: Disk, steps: seq<Step>)
    requires NoFailedRotation(steps)
    ensures var w := Run(stale, steps);
            var n := |w.committed|;
            n >= 2 && Live in w.disk ==>
              && w.committed[n - 1].Valid() && w.committed[n - 2].Valid()
              && LoadLatest(w.disk) == if w.committed[n - 1].Proper()
                                       then w.committed[n - 1].Loads()
                                       else w.committed[n - 2].Loads()
  {
    hide ReadCheckpoint, Next, Run, WriterOk, Snapshot.File, Snapshot.Content, Snapshot.Valid,
      Snapshot.Payload, Snapshot.Tail, Snapshot.Proper;
    RunKeeps(stale, steps);
    RunKeepsAdjacent(stale, steps);
    SnapshotsRead(Run(stale, steps).committed);
  }

  /** Later steps never take a generation back: what was committed stays committed. */
  lemma {:induction false} CommittedGrows(stale: Disk, steps: seq<Step>, k: nat)
    requires k <= |steps|
    ensures Run(stale, steps[..k]).committed <= Run(stale, steps).committed
    decreases |steps|
  {
    if k == |steps| {
      assert steps[..k] == steps;
    } else {
      hide Next;
      var before, e := steps[..|steps| - 1], steps[|steps| - 1];
      assert before[..k] == steps[..k];
      CommittedGrows(stale, before, k);
      CommitsAppend(Run(stale, before), e);
      PrefixTransitive(Run(stale, steps[..k]).committed, Run(stale, before).committed,
                       Next(Run(stale, before), e).committed);
    }
  }

  lemma PrefixTransitive<T>(a: seq<T>, b: seq<T>, c: seq<T>)
    requires a <= b && b <= c
    ensures a <= c
  {
  }

  lemma CommitsAppend(w: World, e: Step)
    ensures w.committed <= Next(w, e).committed
  {
  }

  /** A live file that announces a missing cluster block is not loadable: the loader falls back
      to the generation before it. */
  lemma UnannouncedFallsBack(disk: Disk, s: Snapshot, older: Snapshot)
    requires s.Valid() && !s.Proper() && older.Valid() && older.Proper()
    requires Live in disk && Prev in disk
    requires disk[Live] == s.File() && disk[Prev] == older.File()
    ensures older.meta.r <= |older.meta.auxPrimes| && older.meta.r <= |older.meta.tS|
    ensures LoadLatest(disk) == Some(older.Content())
  {
    hide ReadCheckpoint, Snapshot.Content;
    SnapshotReads(older);
    SnapshotReads(s);
  }

  // ---------------------------------------------------------------------------
  // The writer as one call
  // ---------------------------------------------------------------------------

  /** Which system calls fail, and how much a failing write got through. */
  datatype Faults = Faults(payloadOk: bool, tailOk: bool, rotateOk: bool, commitOk: bool,
                           written: nat)

  predicate SameAt(a: Disk, b: Disk, n: Name) {
    (n in a <==> n in b) && (n in a && n in b ==> a[n] == b[n])
  }

  class CheckpointDir {
    var files: Disk

    constructor (files: Disk)
      ensures this.files == files
    {
      this.files := files;
    }

    /** Writes a checkpoint whose payload and tail are given. On success the new file is live and
        the former live file, if its rename went through, is the previous one; on failure the
        live file is untouched or has become the previous one. */
    method WriteCheckpointAtomic(payload: seq<byte>, tail: seq<byte>, faults: Faults)
      returns (ok: bool)
      modifies this
      ensures ok == (faults.payloadOk && faults.tailOk && faults.commitOk)
      ensures ok ==> Live in files && files[Live] == payload + tail && Tmp !in files
      ensures ok ==> if Live in old(files) && faults.rotateOk
                     then Prev in files && files[Prev] == old(files)[Live]
                     else SameAt(files, old(files), Prev)
      ensures !ok ==> if Live in old(files) && faults.rotateOk && faults.payloadOk && faults.tailOk
                      then Live !in files && Prev in files && files[Prev] == old(files)[Live]
                      else SameAt(files, old(files), Live) && SameAt(files, old(files), Prev)
    {
      files := files - {Tmp};
      if !faults.payloadOk {
        files := files[Tmp := payload[..Min(faults.written, |payload|)]];
        return false;
      }
      files := files[Tmp := payload];
      if !faults.tailOk {
        files := files[Tmp := payload + tail[..Min(faults.written, |tail|)]];
        return false;
      }
      files := files[Tmp := payload + tail];
      if Live in files {
        if faults.rotateOk {
          files := RenameLive(files);
        }
      }
      if !faults.commitOk {
        return false;
      }
      files := RenameTmp(files);
      return true;
    }
  }

}
