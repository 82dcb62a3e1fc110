# Verified model of the matrix reduction and the cluster protocol

This project models the host-side logic of cuda-mpqs, a self-initializing quadratic sieve, and
proves properties of that model with the Dafny verifier. `dafny verify dfyconfig.toml` checks all
of it.

**The GF(2) matrix and the way back.** Relations become parity rows. Singleton removal,
weight-two merges and higher-weight merges shrink the matrix while keeping an inverted index and a
merge tree. A solution of the small matrix expands through the tree to relations. The main results:
each pass is a bijection between the dependencies of its input and of its output, and an expanded
solution is a nonempty set of relations whose signed factorizations multiply to a perfect square.
Character columns and truncation are shown to keep what the later steps need.

- `Gf2`, `SparseRows`, `Reduction`, `Passes`: sums of rows, merging of sorted rows, and what it means
  for working rows to be a kernel-preserving reduction of the input
- `Csr`, `ColumnIndex`, `MergeTrees`, `MergeState`: compressed rows, the inverted index, the merge
  DAG, and the invariant both merge loops keep
- `Singletons`, `PairMerges`, `WeightTwo`, `HigherWeight`, `Preprocess`, `PackedSelection`: the passes,
  why their order of work does not matter, their composition, and the row selection of the packed pipeline
- `Relations`, `ExpandedMatrix`, `PerfectSquares`, `CharacterColumns`, `Truncation`, `ExpandedPath`: what a
  row means, and the whole path from relations to a square

**The cluster.** Work distribution, transport and persistence are modelled as state machines, and the
claims are about whole runs: no index skipped or sieved twice, nothing reordered or repeated on the
way to the coordinator, every crash recoverable.

- `WorkPool`, `ResumeLegs`, `ContiguousRanges`, `DirectChannel`: who sieves what, over crashes
- `SpscRing`, `Bytes`, `Crc32`, `Framing`, `BatchCodec`, `BatchWire`, `BatchMerge`, `WorkerStream`:
  from the sieve thread's ring to the relations the coordinator decodes
- `ByteCodec`, `RelationFile`, `FileStream`, `CheckpointFile`, `CheckpointStore`: the files and the
  crash-safe writer
- `RelationHash`, `Accumulator`: deduplication

**The autotune history.** `JsonText`, `JsonReader`, `JsonSkip`, `JsonHistory`, `JsonLayout`: the JSON
printer and parser undo each other, and unknown members of any shape, inserted anywhere, change nothing.

Code that changes state step by step is a method with loop invariants, or a class (`WorkPool`,
`TcpSocket`, `DirectChannel`, `SafeReader`, `InStream`, `CheckpointDir`, `RelationAccumulator`,
`JsonReader`), proved against a specification function; the lemmas are about those functions.

## Where the code and its description differ

The model follows the code.

- `merge_filter.h:46` says every column ends with weight 0 or at least 3. A column held by both merged
  rows can fall from 3 to 1 (`WeightTwo.SharedColumn`). What always holds is that no column has weight 2;
  the header's promise holds exactly if the input had no column of weight 1 and no merged pair shared a
  column of weight 3 (`WeightTwo.MergeWeight2`), so always for input columns of even weight.
- Singleton removal stops after 100 passes, which can be before it converges. It converges on all matrices
  of n rows exactly if n is at most 100 (`Singletons.ConvergesIff`, `Singletons.SingletonLeft`).
- The relaxation branch of `truncateMatrix` cannot be entered (`Truncation.TruncateMatrix`).
- `completedPrefixCursor` is described as the largest completed prefix. That holds exactly when no empty
  open unit starts below every nonempty one (`WorkPools.PrefixLargestIff`), so in every run with positive
  checkouts (`WorkPools.PrefixIsLargest`).
- Chunk ids are a 32-bit counter. The ids in flight are distinct in all runs of up to n checkouts exactly if
  n is at most 2^32 (`WorkPools.DistinctIdsIff`).
- `sendMsg` frames payloads of every 32-bit length, while `recvMsg` rejects those above 64 MiB and drops its
  buffer (`Framing.OversizeClearsBuffer`). A list of messages can be delivered exactly if none is above
  64 MiB (`Framing.DeliverableIff`, `Framing.SentIsDelivered`).
- `jsonEscape` escapes five characters and copies other control characters as they are, which
  section 7 of RFC 8259 does not allow. The parser reads them back (`JsonText.StringRoundTrip`).
- The equal split for all-zero multiprocessor counts hands out one window per node and misses the window
  estimate (`ContiguousRanges.TotalIsEnoughIff`); counts stay multiples of the window for every number of
  windows exactly if window or quantum divides the other (`ContiguousRanges.AlignedIff`).
- A checkpoint whose trailer announces a cluster block, written without one, is committed but cannot be
  read (`CheckpointFile.WrittenIsReadIff`); the loader then falls back to an older generation
  (`CheckpointStore.LatestSurvives`, `CheckpointStore.OneGenerationBack`).
- The resume guard does not compare range boundaries, as its own description admits
  (`ResumeLegs.GuardAloneCanSkip`; `ResumeLegs.ForeignResumeIff` says exactly when it is enough).

## Preconditions

Input rows are strictly increasing and in range. Within a relation factor indices are distinct and
below the factor base size, and exponents of two are not negative. Large primes are below 2^48, so that
keeping 64 bits of them loses nothing. Values fit the C++ types they are
stored in where they are encoded. Window sizes are below 2^32.

## Model

| member | source | states |
|---|---|---|
| `Reduction.ExpansionIsDependency` | src/matrix/merge_filter.cpp:454-465 | while every live row is the GF(2) sum of the input rows of its label, a set of live rows cancels exactly when its expansion to input rows cancels |
| `Reduction.ExpansionInjective` | src/matrix/merge_filter.cpp:454-465 | different sets of live rows expand to different sets of input rows |
| `Reduction.AddLiveRow` | src/matrix/merge_filter.cpp:246-286 | adding one live row to another keeps the one-to-one correspondence between dependencies of the working rows and of the input |
| `Reduction.DropUnusedRow` | src/matrix/merge_filter.cpp:505-514 | deleting the only holder of a column keeps that correspondence: one row and one column go together, nothing in the kernel is lost |
| `Passes.PassKernel` | src/matrix/merge_filter.cpp:97-121 | a selection of output rows of a finished pass is a dependency exactly when its expansion is one of the input |
| `Passes.PassBijection` | src/matrix/merge_filter.cpp:454-465 | every dependency of a pass's input is the expansion of exactly one dependency of its output |
| `Passes.ComposePasses` | src/matrix/preprocess.cpp:94-103 | two passes in a row are a pass, with composed column maps and composed row labels |
| `SparseRows.XorRows` | src/matrix/merge_filter.cpp:153-173 | the two-pointer merge of two strictly sorted rows is strictly sorted and is their symmetric difference |
| `CsrMatrix.RenumberColumns` | src/matrix/merge_filter.cpp:85-95 | column compaction numbers exactly the columns of positive weight, in order, and maps back |
| `CsrMatrix.Compact` | src/matrix/merge_filter.cpp:97-121 | the rebuilt matrix is valid; its rows are the live rows in ascending order with their columns renamed; its columns are exactly those of positive weight |
| `CsrMatrix.CompactedPass` | src/matrix/merge_filter.cpp:316-345 | compaction turns the loop invariant of any of the three reductions into a finished pass |
| `CsrMatrix.CompactedWeight` | src/matrix/merge_filter.cpp:539-560 | compaction keeps the weight of every surviving column |
| `Singletons.CountWeights` | src/matrix/merge_filter.cpp:25-33 | the initial counters are the exact column weights |
| `Singletons.FindSingleton` | src/matrix/merge_filter.cpp:49-56 | the test finds a weight-one column exactly if the row holds one |
| `Singletons.RemoveRow` | src/matrix/merge_filter.cpp:58-63 | removing a row keeps the counters exact for the rows that are left |
| `Singletons.ScanRow` | src/matrix/merge_filter.cpp:43-65 | a row dies exactly if it is live and holds a column no other live row holds |
| `Singletons.ScanPass` | src/matrix/merge_filter.cpp:40-75 | one pass computes the scan function on the live set, and removes nothing only if nothing changes |
| `Singletons.KeptReduces` | src/matrix/merge_filter.cpp:58-63 | the rows dropped by scans lie in no dependency: the kept rows have the same kernel |
| `Singletons.ScansKeepStable` | src/matrix/merge_filter.cpp:40-75 | a row set in which every touched column is touched at least twice survives any number of ascending scans |
| `Singletons.FixpointIsStable` | src/matrix/merge_filter.cpp:74 | a pass removes nothing exactly when every touched column is touched at least twice |
| `Singletons.RemoveSingletons` | src/matrix/merge_filter.cpp:19-144 | the result is a pass (kernel bijection) whose kept rows are the scan result; row and column maps are strictly increasing; if it stopped before 100 passes, or had at most 100 rows, no weight-one column is left |
| `Singletons.AnyOrderLeavesLargest` | src/matrix/merge_filter.cpp:35-75 | whatever the order in which rows with a singleton are removed, removing until none is left ends with the largest row set in which every touched column is touched at least twice |
| `Singletons.OrderIsIrrelevant` | src/matrix/merge_filter.cpp:35-75 | any two exhaustive orders of removal end with the same rows |
| `Singletons.ScansAreRemoval` | src/matrix/merge_filter.cpp:40-75 | the passes follow one such order |
| `Singletons.SurvivorsAreLargest` | src/matrix/merge_filter.cpp:35-75 | the survivors contain what every exhaustive order leaves; they are exactly that, and the largest stable row set, if and only if they are stable |
| `Singletons.ConvergesIff` | src/matrix/merge_filter.cpp:14-15 | for every n: 100 passes leave every matrix of n rows free of singletons if and only if n is at most 100 |
| `Singletons.LadderDoesNotConverge` | src/matrix/merge_filter.cpp:14-15 | for every n above 100, rows on which 100 passes leave a touched column of weight one |
| `Singletons.SingletonLeft` | src/matrix/merge_filter.cpp:19-144 | for every n above 100, a valid matrix of n rows on which the pass stops with a singleton left |
| `ColumnIndex.BuildIndex` | src/matrix/merge_filter.cpp:209-219 | `col_weight[c]` is the number of rows with c, `col_rows[c]` lists exactly those rows, once each, ascending |
| `ColumnIndex.Unregister` | src/matrix/merge_filter.cpp:262-275 | a row is taken off the lists of exactly the columns it no longer holds |
| `ColumnIndex.Register` | src/matrix/merge_filter.cpp:277-286 | counters go up for all columns of the new row, and only columns new to it get a list entry |
| `ColumnIndex.ReplaceRow` | src/matrix/merge_filter.cpp:487-500 | replacing a row keeps counters and lists exact, and each weight changes by exactly the row's difference |
| `ColumnIndex.DeleteRow` | src/matrix/merge_filter.cpp:505-513 | deleting a row keeps counters and lists exact |
| `MergeTrees.MergeTree.Expand` | src/matrix/merge_tree.cpp:13-31 | the explicit-stack walk ends and returns the leaves of the node, with multiplicity, in the recursive order |
| `MergeTrees.LabelOfNode` | src/matrix/merge_filter.cpp:249-252 | the label of a merge node (leaves with odd count) is the GF(2) sum of its children's labels |
| `MergeTrees.GrowKeepsLeaves` | src/matrix/merge_filter.cpp:249-252 | appending a node changes the expansion of no existing node |
| `MergeTrees.CountFlips` | src/matrix/merge_tree.cpp:51-56 | counting a leaf once more flips it in or out of the odd ones, also when the 32-bit counter wraps |
| `MergeTrees.ExpandKernelVector` | src/matrix/merge_tree.cpp:33-66 | the returned relations are strictly ascending and are exactly the GF(2) sum of the labels of the selected rows; missing words select nothing |
| `MergeState.Start` | src/matrix/merge_filter.cpp:184-219 | rows, node map and index start with every row being the sum of its node's leaves |
| `MergeState.CombineRows` | src/matrix/merge_filter.cpp:246-305 | one row addition keeps the invariant: sorted rows, exact index, every live row the GF(2) sum of its node's leaves counted with multiplicity, kernel correspondence |
| `MergeState.KillRow` | src/matrix/merge_filter.cpp:505-514 | deleting the sole holder of a column keeps that invariant |
| `MergeState.Finish` | src/matrix/merge_filter.cpp:316-345 | the compacted result is a pass with the right labels, and keeps every weight and row length |
| `WeightTwo.FirstTwoAlive` | src/matrix/merge_filter.cpp:237-244 | the search finds both rows of a weight-two column |
| `WeightTwo.MergePair` | src/matrix/merge_filter.cpp:246-308 | the first holder becomes the sum, the second dies, weights fall by two exactly on shared columns and by none elsewhere |
| `WeightTwo.Requeue` | src/matrix/merge_filter.cpp:288-301 | after a merge every column of weight two is in the queue again |
| `WeightTwo.MergeColumn` | src/matrix/merge_filter.cpp:230-311 | one iteration keeps the invariant and the queue complete, keeps every weight's parity, raises no weight and removes one row |
| `WeightTwo.MergeAll` | src/matrix/merge_filter.cpp:230-311 | the loop ends (live rows, then queued columns, go down) and no column of weight two is left |
| `WeightTwo.MergeWeight2` | src/matrix/merge_filter.cpp:175-359 | the pass is a kernel bijection; no output column has weight two; no column's weight changed parity or grew; a column of even weight disappears or ends with weight at least 4; each merge removed one row; the row map carries the composed labels; all output columns have weight at least 3 if and only if the input had no column of weight one and no merged pair shared a column of weight three |
| `PairMerges.MergedWeight` | src/matrix/merge_filter.cpp:246-308 | a merge takes two holders from every column both rows hold and none from any other |
| `PairMerges.WeightOneIff` | src/matrix/merge_filter.cpp:209-311 | over any run of pair merges: a column of weight one is left if and only if there was one at the start or some merged pair shared a column of weight three |
| `PairMerges.RunRefines` | src/matrix/merge_filter.cpp:209-311 | no run merges rows beyond the blocks of any partition whose block sums have no column of weight two |
| `PairMerges.OrderIsIrrelevant` | src/matrix/merge_filter.cpp:209-311 | whatever order the queue is worked off in, all exhaustive runs end with the same sums of input rows |
| `PairMerges.SameWeights` | src/matrix/merge_filter.cpp:209-311 | and every column with the same weight |
| `WeightTwo.SharedColumn` | src/matrix/merge_filter.cpp:253-286 | a matrix without singletons on which the pass leaves a column of weight one, so that not every column ends with weight 0 or at least 3 |
| `PairMerges.SharingIsIrrelevant` | src/matrix/merge_filter.cpp:209-311 | for an input without weight-one columns, whether some merged pair shares a column of weight three is the same for every exhaustive run |
| `HigherWeight.LightestRow` | src/matrix/merge_filter.cpp:445-452 | the pivot is the first row of least weight among the holders |
| `HigherWeight.WithinCapIff` | src/matrix/merge_filter.cpp:384-392 | a row weight is within the cap exactly when it is within the given limit or at most twice the average row weight of the input |
| `HigherWeight.PlanColumn` | src/matrix/merge_filter.cpp:466-475 | the plan is complete exactly when every sum with the pivot fits the cap; otherwise some sum does not fit |
| `HigherWeight.Commit` | src/matrix/merge_filter.cpp:477-503 | after the planned sums the column occurs in the pivot alone |
| `HigherWeight.TryColumn` | src/matrix/merge_filter.cpp:433-523 | all or nothing: exactly if all sums with the lightest holder fit the cap, the first lightest row of the list is added to every other holder and deleted and no other row changes; else the whole state is unchanged |
| `HigherWeight.Round` | src/matrix/merge_filter.cpp:424-523 | exactly the columns of weight w at the start are worked off in ascending order; each one with 2 to k_max holders that can be eliminated when its turn comes is, and nothing else happens; as many columns are emptied as rows removed |
| `HigherWeight.AllRounds` | src/matrix/merge_filter.cpp:424-523 | there is one such round for every weight from 3 to k_max, each beginning where the one before ended |
| `HigherWeight.MergeHigherWeight` | src/matrix/merge_filter.cpp:365-596 | the output is exactly what the rounds for all weights 3 to k_max make of the input; it is a kernel bijection; as many used input columns are emptied and dropped as rows are removed; no row becomes heavier than the larger of the cap and its own input weight |
| `Preprocess.PreprocessMatrix` | src/matrix/preprocess.cpp:88-109 | the three passes together are one pass from the expanded matrix, described by the merge tree alone; each was carried out to its end: the counted singleton scans, an exhaustive run of pair merges, and the rounds for all weights from 3 to k_max; the reported counters are theirs |
| `Preprocess.EveryDependencyIsFound` | src/matrix/preprocess.cpp:88-109 | every set of relations whose rows cancel comes from exactly one solution of the reduced matrix |
| `Preprocess.SolutionIsSquare` | src/matrix/preprocess.cpp:88-109 | a solution of the reduced matrix expands to relations whose signed factorizations multiply to the square of an integer; a nonzero solution gives a nonempty set |
| `Preprocess.SolutionIsCongruence` | src/matrix/preprocess.cpp:88-109 | if each relation's root squares to its value modulo N, the expanded solution gives two integers with congruent squares modulo N |
| `ExpandedMatrix.CountRowCols` | src/matrix/expanded_matrix.cpp:16-39 | pass 1 counts exactly the columns of the row |
| `ExpandedMatrix.FillRowCols` | src/matrix/expanded_matrix.cpp:45-81 | pass 2 yields the sign, two, odd factor and large prime columns, strictly ascending |
| `ExpandedMatrix.AssignLpColumns` | src/matrix/expanded_matrix.cpp:90-106 | each distinct large prime gets its own column, numbered consecutively behind the factor base |
| `ExpandedMatrix.RowCounts` | src/matrix/expanded_matrix.cpp:108-128 | the counts of pass 1 are the lengths of the rows of pass 2 |
| `ExpandedMatrix.FillRows` | src/matrix/expanded_matrix.cpp:138-151 | pass 2 writes every row exactly into the slice pass 1 reserved |
| `ExpandedMatrix.Build` | src/matrix/expanded_matrix.cpp:83-203 | the matrix is valid CSR and its rows are the parity rows of the relations, smooth ones first |
| `PerfectSquares.RowSquare` | src/matrix/expanded_matrix.cpp:45-81 | a relation's signed value is the product of the values of its row's columns times a square |
| `PerfectSquares.DependencyIsSquare` | src/matrix/expanded_matrix.cpp:45-81 | relations whose rows cancel have values that multiply to a perfect square |
| `CharacterColumns.XorLeaves` | src/matrix/character_columns.cpp:256-287 | XOR over the leaves with multiplicity is the GF(2) sum of the bits of the leaves with odd count |
| `CharacterColumns.ProductCharacterColumns` | src/matrix/character_columns.cpp:259-288 | the k bits of each reduced row are the GF(2) sum of its relations' character bits |
| `CharacterColumns.AppendCharacterColumns` | src/matrix/character_columns.cpp:151-199 | existing columns and the row order are unchanged; the new columns follow and hold exactly the given bits |
| `CharacterColumns.AugmentedKernel` | src/matrix/character_columns.cpp:151-199 | a kernel vector of the augmented matrix is one of the matrix whose relations' bits cancel, and conversely |
| `CharacterColumns.CharacterSolution` | src/matrix/character_columns.cpp:229-288 | with branch columns on an untruncated matrix: augmented kernel vectors are exactly those that expand to a dependency of the original matrix whose `char_bits` XOR to zero on all k bits |
| `ExpandedPath.TruncatedIsFaithful` | src/matrix/matrix_truncation.cpp:107-266 | selections of a truncated matrix cancel exactly when the relations of its kept rows cancel in the original matrix, and different ones expand differently |
| `ExpandedPath.AugmentedIsFaithful` | src/matrix/character_columns.cpp:229-288 | appended columns, after truncation too, add exactly that the character bits of the relations XOR to zero |
| `ExpandedPath.PrepareMatrix` | src/orchestrator/orchestrator.cpp:1912-2000 | build, reduce, truncate and append, every stage carried out when it is due: a selection of the solved matrix cancels if and only if its relations cancel in the expanded matrix and their character bits XOR to zero; different selections expand to different relation sets |
| `ExpandedPath.FindSquare` | src/orchestrator/orchestrator.cpp:1912-2000 | for any solver: if its answer is a solution of the final matrix, the expanded relations multiply to a square, their character bits XOR to zero, and a nonzero solution gives at least one relation |
| `ExpandedPath.LeafBitsAreRelationBits` | src/matrix/character_columns.cpp:266-276 | the character bits of a leaf are those of the relation in the same matrix row, smooth ones first |
| `Truncation.SortRows` | src/matrix/matrix_truncation.cpp:86-101 | all rows, ordered by weight and then index |
| `Truncation.AdmitRow` | src/matrix/matrix_truncation.cpp:112-124 | admitting a row keeps all counters exact and adds its columns to the covered ones |
| `Truncation.CoverageGreedy` | src/matrix/matrix_truncation.cpp:126-139 | the pass admits exactly the rows that touch a column no earlier row covers, never more than the target, and covers every column in use |
| `Truncation.Fill` | src/matrix/matrix_truncation.cpp:141-149 | the fill adds exactly the first missing rows of the weight order up to the target |
| `Truncation.Materialise` | src/matrix/matrix_truncation.cpp:216-266 | the kept rows, ascending, each with its own merge node, without the columns nobody covers |
| `Truncation.TruncateMatrix` | src/matrix/matrix_truncation.cpp:28-285 | returns its input unchanged, or exactly `target` rows: those the coverage pass needs and then the lightest others; every column in use stays covered, so the relaxation branch is never entered |
| `Truncation.TruncatedKernel` | src/matrix/matrix_truncation.cpp:216-266 | a vector over the kept rows is in the kernel exactly when, padded with zeros, it is in the input's kernel |
| `Truncation.LightestFirst` | src/matrix/matrix_truncation.cpp:86-101 | lighter rows come first, equally heavy ones by index |
| `Truncation.AdmittedIff` | src/matrix/matrix_truncation.cpp:126-139 | the coverage pass admits exactly the rows that are the first of the order to touch some column |
| `Truncation.FilledInOrder` | src/matrix/matrix_truncation.cpp:141-149 | the fill takes no row while an earlier one of the order is left out |
| `PackedSelection.SelectKernelVectorRows` | src/matrix/preprocess.cpp:115-130 | sorted; exactly the mapped rows of the selected positions |
| `PackedSelection.ComposeRowMaps` | src/matrix/preprocess.cpp:239-246 | the composed map sends a row of the further reduced matrix to its merged row |
| `PackedSelection.SelectedRowsCancel` | src/matrix/preprocess.cpp:235-256 | after singleton removal on extracted rows, the merged rows selected by a solution through the composed map cancel |
| `SpscRing.StepKeeps` | src/cluster/spsc_ring.h:49-79 | every step of either side, with stale loads of the other index, keeps the ring invariant |
| `SpscRing.RingIsFifo` | src/cluster/spsc_ring.h:49-79 | in every interleaving what is popped, also by an unfinished batch, is a prefix of what is pushed; at most N-1 are held; the slot about to be written is none the consumer may still read |
| `SpscRing.RefusedMeansFull` | src/cluster/spsc_ring.h:50-52 | a push is refused exactly if N-1 items are unreleased as far as the producer can see |
| `SpscRing.EmptyMeansDrained` | src/cluster/spsc_ring.h:60-61 | a pop finds nothing exactly if everything it can see is popped |
| `SpscRing.BatchTakesAll` | src/cluster/spsc_ring.h:68-79 | a batch pop takes everything it saw or as much as it was asked for |
| `Crc32.TableStep` | src/cluster/tcp_transport.cpp:32-39 | one table look-up does eight bit steps of the shift register |
| `Crc32.InitTable` | src/cluster/tcp_transport.cpp:32-39 | the table holds eight bit steps of every byte |
| `Crc32.ComputeCRC32` | src/cluster/tcp_transport.cpp:41-48 | the table-driven checksum equals the bit-serial definition (section 8 of RFC 1952) |
| `Crc32.OneByteChangesCrc` | src/cluster/tcp_transport.cpp:41-48 | strings of equal length that differ in one byte never share a checksum |
| `Crc32.PolynomialShiftedOut` | src/cluster/tcp_transport.cpp:32-48 | the byte 0x80 leaves the register as the reversed polynomial and the empty string has the checksum 0 (section 8 of RFC 1952) |
| `Framing.ParseItem` | src/cluster/tcp_transport.cpp:207-253 | a complete frame at the front is taken off whole; with one wrong payload byte it is dropped alone |
| `Framing.ReceiveOne` | src/cluster/tcp_transport.cpp:193-275 | one call either takes exactly the next frame or leaves all frames in place, however the bytes arrive |
| `Framing.DeliveredInOrder` | src/cluster/tcp_transport.cpp:193-275 | any number of calls with timeouts delivers the undamaged frames of a prefix of the sent ones, in order, and keeps the rest |
| `Framing.AllDelivered` | src/cluster/tcp_transport.cpp:193-275 | once the wire is drained exactly the undamaged messages have been delivered, in order |
| `Framing.SentIsDelivered` | src/cluster/tcp_transport.cpp:167-275 | for all messages sent under consecutive sequence numbers and all reads: once the channel is drained, exactly the sent messages have been received, once each and in order, if and only if no payload is above 64 MiB |
| `Framing.DeliverableIff` | src/cluster/tcp_transport.cpp:167-275 | for every list of messages: some sequence of calls delivers exactly that list if and only if no payload is above 64 MiB, which the sender does not check |
| `Framing.CanDrain` | src/cluster/tcp_transport.cpp:189-275 | from every state of buffer and wire enough calls read everything, so that the receiver waits for more |
| `Framing.OversizeClearsBuffer` | src/cluster/tcp_transport.cpp:219-229 | a frame above 64 MiB, sent like any other, makes the receiver drop all it has buffered |
| `Framing.SendExtends` | src/cluster/tcp_transport.cpp:167-187 | sending a message of any length appends one frame under the next sequence number |
| `Framing.FrameLayout` | src/cluster/tcp_transport.cpp:167-187 | where magic, type, sequence number, length, payload and checksum stand in a frame, and what they are |
| `Framing.ReadOutcomes` | src/cluster/tcp_transport.cpp:255-273 | a signal makes the call try again, a timeout leaves everything in place, and only a peer that closed or an error counts as closed |
| `Framing.TcpSocket.SendMsg` | src/cluster/tcp_transport.cpp:167-187 | the bytes sent are header, payload and checksum; the sequence number advances modulo 2^32 |
| `Framing.TcpSocket.RecvMsg` | src/cluster/tcp_transport.cpp:193-275 | the buffered loop computes the specified receive function on buffer and wire |
| `WorkPools.EventKeeps` | src/cluster/work_pool.cpp:36-130 | each pool operation keeps: every index is completed, in flight, returned or not issued, exactly one of them; the counters add up; ids are distinct |
| `WorkPools.EveryRunPartitions` | src/cluster/work_pool.cpp:36-130 | the partition and the counters hold after every run from a fresh pool |
| `WorkPools.DistinctIdsIff` | src/cluster/work_pool.cpp:36-68 | for every n: the chunk ids in flight are distinct in all runs of up to n checkouts if and only if n is at most 2^32 |
| `WorkPools.PrefixIsCompleted` | src/cluster/work_pool.h:114-138 | everything below the completed-prefix cursor is completed |
| `WorkPools.PrefixIsLargest` | src/cluster/work_pool.h:114-138 | in every run whose checkouts are positive the cursor is the largest one with everything below it completed |
| `WorkPools.OpenStartIsLargest` | src/cluster/work_pool.h:114-138 | in every partitioned state the largest completed prefix is the least start of the nonempty open units |
| `WorkPools.PrefixLargestIff` | src/cluster/work_pool.h:114-138 | the cursor is the largest one if and only if no empty open unit starts below every nonempty one |
| `WorkPools.EmptyCheckoutHoldsBack` | src/cluster/work_pool.h:114-138 | a run with an empty checkout on which indices 0 to 4 are completed and the cursor stays at 0 |
| `WorkPools.RestoredInv` | src/cluster/work_pool.h:140-147 | a restored cursor starts a leg with exactly the indices below it completed |
| `WorkPools.RefusedIff` | src/cluster/work_pool.cpp:36-59 | a positive checkout is refused exactly when nothing is returned and nothing is left at the cursor |
| `WorkPools.HandsOut` | src/cluster/work_pool.cpp:36-73 | otherwise it hands out a nonempty unit no longer than asked for; returned work goes first, the unit returned last from its start, and its indices leave the returned list; else the unit starts at the cursor; it is short only if its source is used up |
| `WorkPools.RefusedInRunIff` | src/cluster/work_pool.cpp:36-59 | in every run with positive checkouts a positive checkout is refused exactly when every index of the range is completed or in flight |
| `WorkPools.CanFinish` | src/cluster/work_pool.cpp:36-130 | from every state such a run reaches, more checkouts and completions complete the whole range, whatever was returned or reclaimed before |
| `WorkPools.OthersStay` | src/cluster/work_pool.cpp:85-99 | reclaiming a worker leaves exactly the chunks of the other workers in flight |
| `WorkPools.OwnUnitsMove` | src/cluster/work_pool.cpp:85-99 | and makes exactly its own units available again |
| `WorkPools.ReturnMoves` | src/cluster/work_pool.cpp:101-112 | returning a chunk takes one chunk with that id out of flight and appends its unit to the returned list; without one nothing happens |
| `WorkPools.WorkPool.CheckoutWork` | src/cluster/work_pool.cpp:36-73 | returned work first, split if too large, then the linear cursor; the new state and result are those of the checkout function |
| `WorkPools.WorkPool.CompleteChunk` | src/cluster/work_pool.cpp:75-83 | removes the first chunk with the id and nothing else |
| `WorkPools.WorkPool.ReclaimWork` | src/cluster/work_pool.cpp:85-99 | moves exactly the chunks of the worker to the returned list, in order, and counts them |
| `WorkPools.WorkPool.ReturnChunk` | src/cluster/work_pool.cpp:101-112 | moves the chunk to the returned list and reports its size, 0 if not in flight |
| `WorkPools.WorkPool.ReclaimPartialChunk` | src/cluster/work_pool.cpp:114-130 | returns exactly the part behind the consumed count, or nothing |
| `WorkPools.WorkPool.RemainingCount` | src/cluster/work_pool.cpp:137-143 | not issued plus returned indices |
| `WorkPools.WorkPool.InFlightCount` | src/cluster/work_pool.cpp:150-155 | indices in flight |
| `WorkPools.WorkPool.CompletedPrefixCursor` | src/cluster/work_pool.h:132-138 | the loop computes the least start of open work, at most the cursor |
| `WorkPools.WorkPool.SetCursor` | src/cluster/work_pool.h:142-147 | sets the cursor of a clean pool and nothing else |
| `ResumeLegs.TrimSplitsRange` | src/common/sieve_checkpoint.h:149-159 | offset plus count is the original count; the offset never exceeds the loaded high-water and gives up at most one hypercube |
| `ResumeLegs.TrimZeroIff` | src/common/sieve_checkpoint.h:149-159 | the count 0 that means unbounded comes out exactly for a fully sieved range shorter than one hypercube |
| `ResumeLegs.AlignedTrimIsBounded` | src/common/sieve_checkpoint.h:133-148 | a nonempty range of whole hypercubes never trims to 0 |
| `ResumeLegs.TrimIdempotent` | src/common/sieve_checkpoint.h:149-159 | trimming by the applied offset again changes nothing |
| `ResumeLegs.StepKeeps` | src/orchestrator/orchestrator.cpp:994-1034 | sieving, reporting, pool operations, checkpoints and crashes keep the resume invariant |
| `ResumeLegs.RecordedIsSieved` | include/orchestrator.h:709-718 | over any number of legs, all a checkpoint records (per-node high-water, pool cursor) was sieved before it was written |
| `ResumeLegs.OwnCheckpointIsAccepted` | src/common/sieve_checkpoint.h:176-183 | a checkpoint is never rejected under the geometry that wrote it |
| `ResumeLegs.ResumeKeepsProgress` | src/common/sieve_checkpoint.h:149-159 | a resume gives up at most one hypercube per node of what is recorded, and only of a whole range, and the pool goes on at the recorded cursor |
| `ResumeLegs.ReportRecordsAll` | src/common/sieve_checkpoint.h:139-141 | the first report of a leg records the applied offset plus what is reported, up to the whole range |
| `ResumeLegs.NothingIsSkipped` | src/common/sieve_checkpoint.h:149-183 | a run that finishes, after any number of crashes and resumes, has sieved every index of every initial range and of the pool |
| `ResumeLegs.FullLegRecordsAll` | src/common/sieve_checkpoint.h:139-141 | a fully sieved trimmed leg records exactly the original count |
| `ResumeLegs.GuardAloneCanSkip` | src/common/sieve_checkpoint.h:163-183 | a checkpoint of a run with other range boundaries passes the topology guard and an index is skipped |
| `ResumeLegs.ForeignResumeIff` | src/common/sieve_checkpoint.h:163-183 | for all two geometries: no checkpoint any run of the first reaches, and the guard accepts, makes the second skip an index, if and only if the node counts differ, the pools share no cursor, or the pool does not start earlier and all that a trim can cut off a range lies in the node's old range or the old pool's front |
| `ResumeLegs.SameOverflowIff` | src/common/sieve_checkpoint.h:163-183 | with equal overflow starts that means: per node an empty range on either side, equal starts, or a new range of one index that is always sieved again |
| `ContiguousRanges.ComputeContiguousRanges` | src/cluster/chunk_scheduler.cpp:57-117 | the ranges follow each other from 0 with the specified counts (zero headroom) |
| `ContiguousRanges.RangesTile` | src/cluster/chunk_scheduler.cpp:80-116 | every index below the total lies in exactly one range, no other index in any |
| `ContiguousRanges.RangesAligned` | src/cluster/chunk_scheduler.cpp:83-104 | every count is a positive multiple of the quantum and, if window or quantum divides the other, of the window |
| `ContiguousRanges.AlignedIff` | src/cluster/chunk_scheduler.cpp:101-104 | quantum rounding keeps all counts multiples of the window exactly if one of the two divides the other |
| `ContiguousRanges.TotalIsEnoughIff` | src/cluster/chunk_scheduler.cpp:67-104 | the counts reach the estimated windows if and only if some node reports a multiprocessor; the equal split of the fallback stays below it |
| `ContiguousRanges.EstimateExact` | src/cluster/chunk_scheduler.cpp:67-71 | the window estimate is at least four per node and enough for the target, and no larger than the next pair of windows that takes |
| `ContiguousRanges.NodeShare` | src/cluster/chunk_scheduler.cpp:80-103 | every count is a number of windows rounded up to the quantum, and that number is the node's share of the estimate in proportion to its multiprocessors, rounded up |
| `ContiguousRanges.TotalAtMost` | src/cluster/chunk_scheduler.cpp:57-117 | all ranges together hold at most one window and one quantum per node more than the estimate |
| `DirectChannels.DirectChannel.OnBatchComplete` | src/cluster/direct_channel.h:112-143 | a full buffer loses exactly its oldest payload, the new one goes last, the consumed counter advances by the given or the default step |
| `DirectChannels.DirectChannel.TryPop` | src/cluster/direct_channel.h:163-171 | takes the oldest payload, or reports an empty buffer |
| `DirectChannels.DirectChannel.SetRange` | src/cluster/direct_channel.h:153-157 | sets limit and step and restarts the count; the buffer is untouched |
| `DirectChannels.HoldsNewest` | src/cluster/direct_channel.h:112-131 | an undrained channel holds exactly the newest payloads, as many as fit |
| `DirectChannels.SieveRange` | src/cluster/direct_channel.h:137-157 | a node that polls before each step ends exactly at its limit rounded up to a step, or where it is told to stop |
| `DirectChannels.NodeStaysInRange` | src/cluster/async_network_data_tap.cpp:64-116 | with a range that is a multiple of the step the node sieves its range and nothing else |
| `DirectChannels.NoSharedIndex` | src/cluster/direct_channel.h:46-57 | no two nodes sieve the same index, for any window and quantum and whenever each node is stopped |
| `DirectChannels.AllIndicesSieved` | src/cluster/chunk_scheduler.cpp:57-117 | left alone the nodes sieve exactly the indices below the total |
| `DirectChannels.ZeroLimitIsUnbounded` | src/cluster/direct_channel.h:145-151 | with the limit 0 a node runs on until told to stop |
| `BatchCodec.RoundTrip` | src/cluster/serialization.cpp:49-136 | decoding an encoded batch gives its first `count` relations with their factor lists in valid CSR, whatever follows |
| `BatchCodec.EmptyRoundTrip` | src/cluster/serialization.cpp:49-136 | no relations encode to a header that decodes to the empty batch |
| `BatchCodec.PrefixIsRejected` | src/cluster/serialization.cpp:106-136 | no strict prefix of a nonempty encoding decodes |
| `BatchWire.SerializeRelationBatch` | src/cluster/serialization.cpp:49-104 | the buffer holds exactly the encoding; it is exactly filled, except for one unused offset slot when count is 0 |
| `BatchWire.SafeReader.ReadWords` | src/cluster/serialization.cpp:31-43 | reads in bounds or fails without moving |
| `BatchWire.DeserializeRelationBatch` | src/cluster/serialization.cpp:106-136 | the cursor-based reader computes the decoding, and returns 0 if anything is missing |
| `BatchMerge.MergeRelationBatches` | src/cluster/serialization.cpp:341-416 | the merged batch is valid CSR and its relations are the inputs' first relations one after the other |
| `BatchMerge.IncrementalRoundTrip` | src/cluster/serialization.cpp:288-335 | both batches of an incremental message come back |
| `BatchMerge.IncrementalPrefix` | src/cluster/serialization.cpp:314-335 | every truncated incremental message is rejected |
| `BatchMerge.CoalescedIsConcatenation` | src/cluster/async_network_data_tap.cpp:185-216 | coalescing, encoding and decoding together are concatenation |
| `WorkerStream.RelationsArriveInOrder` | src/cluster/async_network_data_tap.cpp:168-222 | through ring, coalescing, encoding, framing and arbitrary reads: the messages arrive if and only if none is above 64 MiB, and then the coordinator decodes, in order, without loss or repetition, the relations of the slots taken from the ring, a prefix of those pushed |
| `RelationFile.FileRoundTrip` | src/common/relation_io.cpp:114-253 | reading recovers what was written whatever bytes follow: character bits and auxiliary primes only for r > 0, partials only if there are any |
| `RelationFile.TruncatedFileFails` | src/common/relation_io.cpp:174-253 | no truncated file reads |
| `RelationFile.HeaderChecked` | src/common/relation_io.cpp:182-190 | only a file that starts with the magic bytes and the version 2 reads |
| `FileStream.WriteRelationFile` | src/common/relation_io.cpp:114-172 | the field-by-field writer produces the specified bytes |
| `FileStream.WriteBatch` | src/common/relation_io.cpp:42-50 | all arrays of a batch behind their lengths, in file order |
| `FileStream.ReadRelationFile` | src/common/relation_io.cpp:174-253 | the section-by-section reader computes the specified reading, and fails on a short section, a wrong magic or version |
| `FileStream.ReadBatch` | src/common/relation_io.cpp:53-61 | a batch is read back or the stream fails |
| `CheckpointFile.WrittenIsReadIff` | src/common/sieve_checkpoint.cpp:187-201 | a checkpoint reads back (payload, trailer, cluster block of any node count) if and only if the trailer does not announce a cluster block that was not passed |
| `CheckpointFile.ReadBlockPut` | src/common/sieve_checkpoint.cpp:60-85 | the cluster block reads back for every node count that fits its region |
| `CheckpointFile.NoBlockFails` | src/common/sieve_checkpoint.cpp:70-80 | an empty region never reads as a cluster block |
| `CheckpointFile.CheckpointChecked` | src/common/sieve_checkpoint.cpp:254-324 | a checkpoint loads only if the footer carries its magic bytes and schema number and places the trailer region right before itself, and the file in front has the relation file header |
| `CheckpointStore.StepKeeps` | src/common/sieve_checkpoint.cpp:166-247 | every system call of the writer, a failure and a kill keep the directory recoverable |
| `CheckpointStore.LatestSurvives` | src/common/sieve_checkpoint.cpp:166-247 | after any sequence of writes, failures and kills the loader returns exactly the last committed snapshot, and nothing if none was committed; if the last one announces a missing cluster block it returns what the previous file gives, an older committed snapshot |
| `CheckpointStore.OneGenerationBack` | src/common/sieve_checkpoint.cpp:216-247 | if no rename of the live file failed, a live file that cannot be loaded costs exactly one generation |
| `CheckpointStore.CommittedGrows` | src/common/sieve_checkpoint.cpp:326-338 | what was committed stays committed: the loader never goes back |
| `CheckpointStore.UnannouncedFallsBack` | src/common/sieve_checkpoint.cpp:326-338 | a live file that announces a missing cluster block makes the loader return the generation before it |
| `CheckpointStore.CheckpointDir.WriteCheckpointAtomic` | src/common/sieve_checkpoint.cpp:157-248 | on success the new file is live and the former one retained; on failure the live file is untouched or has become the previous one |
| `RelationHash.ComputeRelationHash` | src/common/relation_hash.h:40-61 | the folding loop computes the hash of the relation |
| `RelationHash.HashFields` | src/common/relation_hash.h:57-60 | the three fields of the hash do not overlap and it fits 64 bits |
| `RelationHash.HashIgnoresOrder` | src/common/relation_hash.h:40-61 | the hash depends on neither the factor order nor the character bits, root and large prime |
| `RelationHash.HashEqualIff` | src/common/relation_hash.h:40-61 | two hashes are equal exactly when the numbers of factors modulo 2^16, the XORs of the counts, and the XORs of the index words with the sign word are |
| `RelationHash.OtherIndexOtherHash` | src/common/relation_hash.h:51 | relations that differ in one prime have different hashes |
| `RelationHash.OtherCountOtherHash` | src/common/relation_hash.h:50 | relations that differ in the multiplicity of one prime have different hashes |
| `RelationHash.OtherLengthOtherHash` | src/common/relation_hash.h:45-58 | relations whose numbers of factors differ modulo 2^16 have different hashes |
| `RelationHash.SignAndTwoIff` | src/common/relation_hash.h:54-56 | relations that differ in sign and power of two alone have equal hashes exactly when the exponents agree modulo 32 and the signs agree or the remainder is 31 |
| `RelationHash.KeptIffFirst` | src/common/sieve_checkpoint.cpp:131-148 | a relation is kept exactly if its hash did not occur before |
| `RelationHash.DedupConcat` | src/cluster/accumulator.h:129-137 | feeding two lists one after the other is feeding their concatenation |
| `RelationHash.DedupIdempotent` | src/common/sieve_checkpoint.cpp:119-151 | deduplicating again changes nothing |
| `RelationHash.DedupEarly` | src/common/sieve_checkpoint.cpp:119-151 | dedup(dedup(A) ++ B) = dedup(A ++ B) |
| `Accumulators.AppendSingleRelation` | src/cluster/accumulator.h:181-204 | the factor loop appends exactly the relation's slice to all arrays |
| `Accumulators.AppendedListed` | src/cluster/accumulator.h:181-204 | appending keeps CSR exact and appends the relation to the list it stands for |
| `Accumulators.RelationAccumulator.AddRelations` | src/cluster/accumulator.h:129-137 | the accumulated list grows by the first occurrences of the batch; the seen set stays the hashes of what is held; per-source counts add up to the total and other sources keep theirs |
| `Accumulators.Ingest` | src/cluster/accumulator.h:129-137 | feeding batches one at a time leaves exactly the first occurrences of their concatenation, in valid CSR |
| `Accumulators.DedupRelations` | src/common/sieve_checkpoint.cpp:119-151 | the in-place dedup computes that same function |
| `JsonText.JsonEscape` | src/autotune/autotune_history.cpp:158-172 | the loop escapes quote, backslash, newline, carriage return and tab and copies every other character |
| `JsonText.StringRoundTrip` | src/autotune/json_reader.h:51-76 | `parseString` gives back every character of a quoted, escaped string, behind any white space |
| `JsonText.UintRoundTrip` | src/autotune/json_reader.h:98-113 | `parseUint64` gives back every printed value below 2^64 |
| `JsonText.UintWithFraction` | src/autotune/json_reader.h:107-111 | an integer written with a fraction parses to the integer and the fraction is skipped |
| `JsonText.NumeralRoundTrip` | src/autotune/json_reader.h:79-95 | a numeral is read to its end and comes back as written |
| `JsonReaders.JsonReader.ReadString` | src/autotune/json_reader.h:51-76 | the cursor loop computes the string parse, position included |
| `JsonReaders.JsonReader.ReadUint64` | src/autotune/json_reader.h:98-113 | the digit loop computes the 64-bit parse and skips a fraction |
| `JsonReaders.JsonReader.ReadDouble` | src/autotune/json_reader.h:79-95 | the scanner takes exactly the numeral's characters |
| `JsonReaders.JsonReader.SkipAny` | src/autotune/json_reader.h:116-158 | skipping terminates and ends where the specified skip ends, for every text |
| `JsonSkip.SkipPrinted` | src/autotune/json_reader.h:116-158 | every well-formed value, with any white space, is skipped exactly |
| `JsonHistory.UnknownMemberIgnored` | src/autotune/json_reader.h:262-288 | at any point of a record, a member with an unknown key and any well-formed value changes nothing |
| `JsonHistory.ValueRoundTrip` | src/autotune/json_reader.h:161-259 | strings, integers, arrays and nested records parse back as printed |
| `JsonHistory.FieldsRoundTrip` | src/autotune/json_reader.h:262-288 | the member loop recovers every field of a printed record |
| `JsonHistory.EntryOk` | src/autotune/json_reader.h:262-288 | the keys of an entry and of its nested records are plain and pairwise different |
| `JsonLayout.DocParses` | src/autotune/json_reader.h:161-288 | a record laid out in any way, with unknown members anywhere, parses to its defaults overwritten by its known members |
| `JsonLayout.FileParses` | src/autotune/autotune_history.cpp:260-312 | a file laid out in any way parses to the entries of its lists if its last version is 1 |
| `JsonLayout.UnknownsIgnored` | src/autotune/json_reader.h:51-158 | unknown members at the top level, in entries and in nested records change nothing: the file parses as it does without them |
| `JsonLayout.HistoryRoundTrip` | src/autotune/autotune_history.cpp:175-252 | parsing a printed history gives back every entry, all strings, integers, arrays and numerals; the generator key is skipped |
| `JsonLayout.HistoryWithUnknowns` | src/autotune/autotune_history.cpp:175-252 | a printed history with unknown members inserted anywhere still parses back to its entries |

## Left out

- CUDA kernels, device buffers and the packed GPU pipeline, apart from the row map composition and the row selection.
- NORM character columns and the selection of auxiliary primes: the symbol and root computations they rest on are not part of this model; `ConcatenateCharacterColumns` only appends columns.
- Sockets, epoll, handshakes and timers: the wire is a byte stream read in arbitrary pieces; a read schedule that ends counts as a timeout.
- Logging, statistics and the time stamps of chunks.
- Widths of row, column and node indices: they are unbounded here, so that 2^32 rows or nodes do not wrap. The leaf counter, chunk ids, sequence numbers, checksums and multiprocessor sums do wrap as in the code.
- Index arithmetic of the pool and of ranges is unbounded; sums near 2^64 are not modelled.
- The weight cap of the higher-weight merges is computed exactly, not in double precision.
- `std::sort` is modelled as insertion with the same order; hash maps and sets as maps and sets.
- `PreprocessMatrix`: the choice between GPU and CPU is not modelled; it is the CPU path.
- `CsrMatrix.Compact`: row offsets are appended in the same order, and local vectors of rows, weights and lists are sequences, so sharing and in-place reuse of memory are not captured.
- The debug window cap and the headroom branch of `computeContiguousRanges`, its throughput-weighted form, and the adaptive chunk sizes (floating point).
- `SpscRing`: release and acquire ordering is abstracted to loads that return any value of the other index between the last seen and the current one; each access is one step.
- The wrappers `requestWork`, `exhausted`, `inFlightFor` and the read-only snapshots of the pool.
- `ResumeLegs.NothingIsSkipped`: a pool chunk or a reported range counts as sieved when it is reported; relations that arrive late for a counted range are not modelled. For a leg under another geometry `ForeignResumeIff` says when its start is sound; from there `StepKeeps` applies once a checkpoint of its own replaces the foreign one.
- The last-writer-wins slot for chunk assignments, recalls and heartbeats of the network tap, and batches dropped because its ring is full: such a batch is not pushed.
- `DirectChannels.NodeStaysInRange`: a node's step is positive; the network tap's `setRange` stores a step of 0 as given, where `DirectChannel::setRange` replaces it.
- The WORK_ASSIGN codec and the version 1 relation file: simpler members of the same kind.
- `BatchWire.DeserializeRelationBatch`: the output batch is fresh; a reused batch would keep longer arrays.
- `FileStream.ReadRelationFile`: stops at the first short section, where the code goes on with undefined lengths and then reports failure; outputs that were filled before the call are not modelled.
- `readCheckpoint` and the trailer writer are functions on the bytes of a file, not cursor loops.
- Power loss: a kill keeps what was written; the effect of `fsync` is not modelled.
- `RelationHash.HashFields`: factor counts are bytes, which the hash relies on to keep its fields apart.
- The dedup margin and target of the accumulator (floating point) and its thread-safe queue.
- Conversion of numerals to and from double precision; numerals that are out of range; not-a-number values.
- `JsonLayout.HistoryRoundTrip`: records are sequences of typed fields described by a schema, instead of C++ structures; the filters applied after parsing, `upsert` and the index of the history store are not modelled.
- SHA-256, autotune search and estimation, kernel launch validation.
