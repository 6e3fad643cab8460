# AgenticDB: storage and query execution, verified

A model of the storage engine and the query path of AgenticDB, with proofs.

- **Storage.** A partition has a write-ahead log, a memory buffer, immutable segments, a manifest and, with a primary
  key, an index from keys to row addresses. Superseded rows are suppressed by bitmaps. Commands (append, delete,
  flush, compact) are sequences of durable steps; a crash may fall between or inside any two of them. The main
  result is that any run of commands, crashes and reopenings leaves exactly the changes of the completed commands,
  each interrupted command made entirely or not at all. A table spreads rows over partitions by key hash; its
  partitions together behave as one table.
- **Queries.** A logical plan is validated, lowered to a linear pipeline (scan, filter, aggregate, rename, sort,
  limit) and executed over read views of the partitions, with segments pruned by statistics and Bloom filters,
  partial aggregates merged, and `count(*)` answered from metadata. The main result is that exactly the queries that
  make sense and fit the pipeline are answered, and with the rows they ask for, under conditions that can be read off
  the plan; where the program does not meet it, the exact condition is proved.

| file | models |
|---|---|
| `Wal`, `LogStore` | the log file: frames, torn tails, truncation; the open log |
| `PartitionState`, `Rewriting`, `Visibility`, `Replay` | a partition's state, moving rows, what a scan sees, replay |
| `Recovery`, `Crash`, `Runs` | durable state, commands as durable steps, whole runs with crashes |
| `SegmentList`, `Partition`, `Memtables`, `Lookup`, `Table`, `Reopen` | the objects and loops, against the above |
| `Routing`, `Sorting` | spreading rows over partitions, sorting by key |
| `Compaction`, `Converge` | the compaction policy, and why compacting comes to rest |
| `Bloom`, `Base64`, `ValueOrder`, `Prune`, `Skip` | filters, their encoding, the value order, pruning |
| `Expr`, `Select`, `Rename` | expressions, which rows they select, renamings |
| `Plan`, `Physical`, `Pipeline` | plans, lowering, which plans the planner accepts |
| `Labels`, `Quantity` | the names and types of result columns, and when they are right |
| `AggState`, `Aggregate`, `Summary` | accumulators, grouped aggregation, what the aggregates are |
| `Snapshot`, `Execute` | read views, execution |
| `Validate`, `Request`, `RequestedPlan` | validation, and what a query asks for |
| `Engine` | a query from beginning to end |

Parameters rather than models: the serializer (decoding undoes encoding, and nothing encodes to nothing), the CRC, the
hash functions, arithmetic and LIKE kernels, the lexicographic sort (it permutes), the date parsers, byte sizes.

## Model

| member | source | states |
|---|---|---|
| Wal.Scan | crates/adb-storage/src/wal.rs:205-274 | the scan loop returns the intact records up to the first unusable byte, and `Corrupt` for a bad header or damage before the last record |
| Wal.ScanEncoded | crates/adb-storage/src/wal.rs:205-314 | a log of records that fit scans to exactly those records and ends where they end |
| Wal.ScanInterrupted | crates/adb-storage/src/wal.rs:205-314 | after any proper prefix of one more frame, the scan still returns the records before it and where they end |
| Wal.ScanCut | crates/adb-storage/src/wal.rs:205-274 | a log cut anywhere at or after its header scans to exactly the wholly written records |
| Wal.AppendReadable | crates/adb-storage/src/wal.rs:284-314 | a record the size check accepts is readable after the append if and only if its untruncated length is at most 2^30 |
| Wal.AcceptsExactly | crates/adb-storage/src/wal.rs:284-314 | a record is readable after it was appended if and only if it has at most 2^30 bytes; the size check accepts all of these and, of lengths below 2^32, no others |
| Wal.StoredExactly | crates/adb-storage/src/wal.rs:205-274 | a stored frame after a log is taken over if and only if its length is in range, its checksum right and its payload decodes; otherwise the log ends before it, or is reported as corrupt when more follows a frame of a length in range |
| Wal.OversizedRecordIsLost | crates/adb-storage/src/wal.rs:290-300 | example: a payload of a multiple of 2^32 bytes is accepted, and the scan drops it as a torn tail |
| Wal.ScanAgain | crates/adb-storage/src/wal.rs:162-173 | after cutting off the torn tail of any scannable file, scanning it gives the same records and the same end |
| Wal.TruncateKeepsAbove | crates/adb-storage/src/wal.rs:324-362 | truncating the checkpointed prefix leaves a log that scans to exactly the records above it, in order |
| LogStore.FileLogStore.Open | crates/adb-storage/src/wal.rs:143-188 | opening creates a missing log, recovers what the scan finds, cuts the file there and counts the bytes dropped; null exactly on corruption |
| LogStore.FileLogStore.Append | crates/adb-storage/src/wal.rs:284-314 | a record of at most 2^30 bytes goes to the end of file and log under the next LSN; a longer one is refused and changes neither but uses up its LSN |
| LogStore.FileLogStore.Truncate | crates/adb-storage/src/wal.rs:324-362 | the file holds exactly the records above the given LSN, and LSN assignment is unaffected |
| LogStore.ReopenWellFormed | crates/adb-storage/src/wal.rs:143-188 | reopening any cut of a well-formed log gives a well-formed log whose next LSN is above all it holds and at most the old one |
| PartitionState.StepValid | crates/adb-storage/src/table.rs:152-205 | every elementary change keeps the invariant: the key index is a bijection between keys and live rows |
| PartitionState.StepViews | crates/adb-storage/src/table.rs:152-205 | on the map from keys to rows that the partition shows, a put overwrites one key and a delete removes one |
| Rewriting.MergeIndexed | crates/adb-storage/src/keyindex.rs:92-100 | moving live rows to a new segment, relocating only keys that still point at them, keeps the bijection |
| Rewriting.MergeView | crates/adb-storage/src/table.rs:535-629 | moving live rows changes no key's row |
| Visibility.FlushVisible | crates/adb-storage/src/table.rs:438-508 | a flush leaves the sequence a scan sees exactly as it was, order included |
| Visibility.CompactVisible | crates/adb-storage/src/table.rs:535-629 | a compaction leaves the multiset of rows a scan sees as it was |
| Visibility.VisibleIsView | crates/adb-storage/src/table.rs:372-383 | what a scan of a keyed partition sees is each key's row, once |
| Recovery.RebuildIndexed | crates/adb-storage/src/table.rs:334-358 | with an empty buffer, rebuilding from the segments' live rows gives back any index that is a bijection between keys and live rows |
| Crash.EarlySuppression | crates/adb-storage/src/table.rs:510-629 | a compaction commits suppressions of log records that are not checkpointed; replaying those records onto it gives exactly the compacted state again |
| Crash.DoInv | crates/adb-storage/src/table.rs:391-629 | every command keeps the system invariant: reopening the disk would rebuild exactly the state in memory |
| Crash.CrashRecovers | crates/adb-storage/src/table.rs:391-629 | any disk a crash leaves between or within a command's durable steps reopens to exactly the state before the command or the state after it, with the log records of that state |
| Runs.FlushInvisible | crates/adb-storage/src/table.rs:438-508 | flushing does not change the table that a partition shows |
| Runs.CompactInvisible | crates/adb-storage/src/table.rs:535-629 | compacting does not change the table that a partition shows |
| Runs.ObserveDo | crates/adb-storage/src/table.rs:391-629 | each command changes the table shown by exactly its effect: puts and deletes in order, nothing for flush and compaction, nothing when the log refuses |
| Runs.RunCorrect | crates/adb-storage/src/table.rs:238-629 | every legal run of commands, crashes and reopenings ends consistent, showing the completed commands' changes in order with each interrupted command's made entirely or not at all |
| Runs.RowCrash | crates/adb-storage/src/table.rs:391-629 | after a crash anywhere in a row of commands, the partition reopens consistent and shows exactly the changes of the commands completed, and of the one interrupted or not |
| Runs.AcknowledgedIsReplayed | crates/adb-storage/src/wal.rs:190-197 | LSNs in the file strictly increase, and an acknowledged record is above the checkpoint, so that replay includes it |
| Runs.FreshConsistent | crates/adb-storage/src/table.rs:238-332 | a partition without a disk opens consistent and empty |
| Memtables.Memtable.Append | crates/adb-storage/src/memtable.rs:31-38 | the buffer gains the batch's rows at the end; an empty batch is ignored |
| Memtables.Memtable.Locate | crates/adb-storage/src/memtable.rs:71-82 | an ordinal is found if and only if it is below the row count, in the batch and place where the whole buffer has it |
| SegmentList.RebuildKeyIndex | crates/adb-storage/src/table.rs:334-358 | the loop over segments and rows builds the specified index |
| Partitions.Partition.Open | crates/adb-storage/src/table.rs:238-332 | opening gives a partition whose state and disk are the specified reopening of the disk, consistent if that is; null only if reopening fails |
| Partitions.Partition.LogRows | crates/adb-storage/src/table.rs:391-406 | logging and applying rows goes through exactly the command's disks and ends in exactly its state; it succeeds if and only if the record has at most 2^30 bytes, and then buffers the rows as one more batch |
| Partitions.Partition.FlushMemtable | crates/adb-storage/src/table.rs:438-497 | a flush goes through segment file, manifest and log truncation in that order and ends in exactly the specified state; nothing when there is nothing to checkpoint |
| Partitions.Partition.CompactSegments | crates/adb-storage/src/table.rs:535-629 | a compaction goes through segment file, manifest and deletion of each input, and ends in exactly the specified state |
| Partitions.Partition.AppendRows | crates/adb-storage/src/table.rs:391-406 | if and only if the record has at most 2^30 bytes the partition shows exactly the rows more, and otherwise the same table; a flush follows if and only if the buffer has then reached a threshold, and the disks are those of the append and of what follows it |
| Partitions.Partition.DeleteKeys | crates/adb-storage/src/table.rs:409-425 | if and only if the record has at most 2^30 bytes, removes exactly the given keys that exist here and counts them; otherwise changes nothing |
| Partitions.Partition.FlushLocked | crates/adb-storage/src/table.rs:438-508 | flush and automatic compaction change nothing shown; a segment is created if and only if the buffer has a live row, and what the policy selects is compacted afterwards if and only if so configured and something was checkpointed |
| Partitions.Partition.CompactByPolicy | crates/adb-storage/src/table.rs:521-528 | compacts exactly the segments the policy selects for the partition's real ids, row counts, byte sizes and suppression counts, and changes nothing shown |
| Partitions.Partition.SegmentFacts | crates/adb-storage/src/table.rs:211-221 | the facts given to the policy are those of the partition's segments, in id order |
| Partitions.Partition.TakeSnapshot | crates/adb-storage/src/table.rs:372-383 | the read view lists exactly the visible rows in order, with accurate counts and statistics of those rows |
| Routing.UnionLookup | crates/adb-storage/src/table.rs:781-849 | a key is in the table if and only if it is in the partition its hash names, with the same row |
| Routing.RouteMeans | crates/adb-storage/src/table.rs:814 | a key goes to the partition that is its hash modulo their number |
| Routing.GroupsRunTable | crates/adb-storage/src/table.rs:781-849 | when every partition runs its keys' share of the changes in order, the table has run all of them in order |
| Routing.SlicesRunTable | crates/adb-storage/src/table.rs:779-796 | without a primary key, slices of a batch over the partitions add every row exactly once |
| Routing.LastRowWins | crates/adb-storage/src/table.rs:168-183 | in a batch with repeated keys the last row of each key stays; other keys are untouched |
| Routing.DeletedKeys | crates/adb-storage/src/table.rs:853-881 | a delete removes exactly the given keys |
| Routing.DeletedCount | crates/adb-storage/src/table.rs:853-881 | the reported count is the number of keys removed if and only if no key that exists is given twice; otherwise it is larger |
| Tables.TableStore.Open | crates/adb-storage/src/table.rs:658-686 | opens every partition from its disk; the table is valid and shows what its disks recover to, whenever each disk recovers to a consistent partition and keys are where they route; null only if a disk cannot be opened |
| Tables.TableStore.Write | crates/adb-storage/src/table.rs:760-851 | a batch is accepted if and only if an upsert has a primary key, an insert's keys neither repeat nor exist already, and every partition's record has at most 2^30 bytes, and then changes the table by exactly its rows in order; the errors for a missing primary key, a repeated key and an existing key occur exactly when they should and change nothing; otherwise the first partition whose record is longer is reported, those before it are done and the others untouched |
| Tables.TableStore.Delete | crates/adb-storage/src/table.rs:853-881 | accepted if and only if there is a primary key and every partition's record has at most 2^30 bytes, and then removes exactly the given keys and counts the hits; the errors occur exactly when they should, a refusal as for a write |
| Tables.TableStore.Get | crates/adb-storage/src/table.rs:888-987 | returns the rows of the keys that exist, in request order, a repeated key each time |
| Tables.TableStore.Snapshots | crates/adb-storage/src/table.rs:705-707 | the partitions' read views together list the table's rows, each once |
| Tables.TableStore.Flush | crates/adb-storage/src/table.rs:990-999 | changes nothing in the table; the count is the number of partitions whose buffer has a live row |
| Lookups.Restore | crates/adb-storage/src/table.rs:975-987 | rows read source by source come back in request order |
| Reopening.NewTable | crates/adb-storage/src/table.rs:658-686 | empty disks make a recoverable table, and it is empty |
| Reopening.SharesHome | crates/adb-storage/src/table.rs:781-849 | the rows a write sends to a partition route to it |
| Reopening.StatementCrash | crates/adb-storage/src/table.rs:658-851 | disks left by a crash anywhere in a statement over several partitions, in the log records or in the flush and compaction after them, make a recoverable table, keys in their partitions; each partition shows what it did after some of the first commands of its part, and so a single change entirely or not at all |
| Reopening.TableCrash | crates/adb-storage/src/table.rs:658-851 | the same for an open table, from its validity: what `TableStore.Open` needs of the disks holds again |
| Reopening.ReopenInterrupted | crates/adb-storage/src/table.rs:257-272 | a crash while reopening, among deleted orphans or at the log's creation or cut, is harmless: reopening again gives the very same partition and disk |
| Reopening.TornHeaderFatal | crates/adb-storage/src/wal.rs:158-161 | a new log whose header is cut short can be opened if and only if none or all of the header was written |
| Compaction.Take | crates/adb-storage/src/compaction.rs:64-73 | takes the longest prefix within the input cap and the byte budget |
| Compaction.Select | crates/adb-storage/src/compaction.rs:58-100 | the loops select what the specification chooses |
| Compaction.ChosenExactly | crates/adb-storage/src/compaction.rs:58-100 | dead segments go first, oldest first, as many as the caps allow; only if none of them can be taken and there are enough segments, the smallest are taken likewise, at least two; they are merged oldest first |
| Compaction.DeadExactly | crates/adb-storage/src/compaction.rs:48-63 | a segment is dead weight if and only if it is empty and the ratio at most one, or its suppressed rows reach the ratio |
| Compaction.ChosenWithin | crates/adb-storage/src/compaction.rs:58-100 | every selection is drawn from the segments, in ascending id order, within the caps, and is either all dead weight or at least two segments |
| Compaction.CompactionLowersWeight | crates/adb-storage/src/compaction.rs:58-100 | with a positive ratio, every selection that is carried out lowers the number of segments plus dead segments |
| Compaction.CompactionConverges | crates/adb-storage/src/compaction.rs:58-100 | with a positive ratio, no series of compactions is longer than the initial weight |
| Compaction.RestsExactly | crates/adb-storage/src/compaction.rs:58-100 | compaction comes to rest from every state if and only if the ratio is positive or the input cap is zero |
| Convergence.CompactRewrites | crates/adb-storage/src/table.rs:535-629 | compacting a partition's selected segments takes exactly their facts away and adds at most one segment, not empty and with nothing suppressed |
| Convergence.Settled | crates/adb-storage/src/table.rs:521-528 | repeated compaction of any partition reaches a state where nothing is selected, and shows the same table |
| Base64.RoundTrip | crates/adb-storage/src/b64.rs:11-79 | decoding undoes encoding for every byte string |
| Base64.Alphabet | crates/adb-storage/src/b64.rs:9 | the digits are A to Z, a to z, 0 to 9, plus and slash in that order, each once |
| Base64.Decode | crates/adb-storage/src/b64.rs:51-79 | the loop decodes as specified, rejecting what is specified |
| Base64.CanonicalExact | crates/adb-storage/src/b64.rs:51-79 | a text that decodes is the encoding of its bytes if and only if padding is only at its end and the bits left over are zero |
| Bloom.SameCanonical | crates/adb-storage/src/hash.rs:31-67 | values that compare equal, such as 2 and 2.0, hash alike |
| Bloom.CanonicalExactly | crates/adb-storage/src/hash.rs:31-67 | values of one kind hash alike if and only if they compare equal, floats of 2^63 excepted |
| Bloom.ContainsExactly | crates/adb-storage/src/bloom.rs:36-59 | a filter reports a value if and only if each of its bits is set by some inserted value |
| Bloom.ProbesSpread | crates/adb-storage/src/bloom.rs:36-41 | in a filter whose size is a power of two, the probes of one value are all different, as long as there are bits for them, because the second hash is made odd |
| Bloom.NoFalseNegatives | crates/adb-storage/src/bloom.rs:36-59 | a filter built from values contains every value equal to one of them |
| Bloom.PersistedNoFalseNegatives | crates/adb-storage/src/bloom.rs:66-109 | the same after the filter was written to its wire form and read back |
| Pruning.ComputeStats | crates/adb-storage/src/segment.rs:75-112 | the statistics loop computes minimum, maximum, null count and filter of every column as specified |
| Pruning.AtomsNecessary | crates/adb-planner/src/optimize.rs:81-142 | every pruning atom extracted from a filter holds of every row the filter selects, nulls included |
| Pruning.PruningSound | crates/adb-exec/src/prune.rs:13-68 | a segment that may be skipped has no row that the filter selects, if no JSON column is compared |
| Pruning.PruneExactly | crates/adb-exec/src/prune.rs:13-68 | over all tables of a schema, pruning by a filter loses no row if and only if none of its pruned conjuncts compares a JSON column, or it selects nothing anyway |
| Pruning.JsonEqualityUnsafe | crates/adb-exec/src/prune.rs:20-60 | the case of one column: skipping on equality with a string is safe for it if and only if its type is not JSON |
| Skipping.ComparisonSkips | crates/adb-exec/src/prune.rs:13-68 | for a comparison of a column that is not JSON with a literal, on either side, exactly the segments without a value in the relation are skipped; for an equality, those whose values are all on one side or whose filter does not report it |
| Skipping.BetweenSkips | crates/adb-exec/src/prune.rs:13-68 | for a BETWEEN on a column that is not JSON, exactly the segments whose values are all below or all above the bounds are skipped |
| Skipping.ListSkips | crates/adb-exec/src/prune.rs:13-68 | for an IN on a column that is not JSON, exactly the segments are skipped that rule out every listed value |
| Skipping.NullSkips | crates/adb-exec/src/prune.rs:13-68 | for IS NULL, exactly the segments without a null are skipped, and for IS NOT NULL those with nothing else |
| Skipping.BothSkip | crates/adb-planner/src/optimize.rs:81-142 | for a conjunction, exactly the segments are skipped that either side skips |
| Expressions.ConjunctsSelect | crates/adb-planner/src/expr.rs:150-163 | a filter selects a row if and only if all its conjuncts do, errors and nulls included |
| Expressions.RewriteEval | crates/adb-planner/src/expr.rs:193-229 | rewriting column names evaluates on the base row to what the original evaluates to on the renamed row |
| Expressions.FlippedMeans | crates/adb-planner/src/expr.rs:63-73 | a comparison with flipped operator and swapped operands is the same comparison |
| Selections.OrderMeans | crates/adb-core/src/types.rs:357-375 | numbers, times and dates are ordered as numbers, false before true, and strings by the first character that differs, a prefix first |
| Selections.ComparisonSelects | crates/adb-exec/src/eval.rs:188-251 | a comparison selects exactly the rows on which both sides have values of one kind, not null, in the relation, and is false of exactly those on which they are not in the relation |
| Selections.ColumnSelects | crates/adb-exec/src/eval.rs:188-251 | the same for a column and a literal, in terms of the row's cell |
| Selections.UnequalSelects | crates/adb-exec/src/eval.rs:234-235 | `!=` is true exactly where `=` is false, and false exactly where it is true |
| Selections.NotSelects | crates/adb-exec/src/eval.rs:107-186 | NOT selects exactly where its operand is false, and is unknown where that is |
| Selections.OrSelects | crates/adb-exec/src/eval.rs:188-200 | OR selects exactly where both sides can be evaluated and one is true, and is false exactly where both are |
| Selections.AndSelects | crates/adb-exec/src/eval.rs:188-200 | AND selects exactly where both sides are true, and is false exactly where both can be evaluated and one is false |
| Selections.NullSelects | crates/adb-exec/src/eval.rs:107-186 | IS NULL and IS NOT NULL select exactly the rows whose value is null or is not, and are never unknown |
| Selections.BetweenIsBounds | crates/adb-exec/src/eval.rs:160-186 | BETWEEN is its two comparisons, and NOT BETWEEN their negation |
| Selections.ListSelects | crates/adb-exec/src/eval.rs:107-186 | IN selects the rows whose value is in the list, and NOT IN those whose value differs from all of it, none of them null; an empty list or one of another kind selects nothing |
| Selections.FilterKeeps | crates/adb-exec/src/eval.rs:91-106 | a filter keeps every row it selects as often as it occurs, and no other |
| Expressions.MemberMask | crates/adb-exec/src/eval.rs:107-186 | the IN-list loop fails exactly on an empty list or values of another type; it is true exactly if the value is in the list, false exactly if it differs from every listed value and no null is involved, and otherwise unknown |
| Renamings.FilterBelowRename | crates/adb-planner/src/physical.rs:198-214 | a filter above a projection is its rewriting below it |
| Renamings.RenameCompose | crates/adb-planner/src/physical.rs:240-265 | two projections are their composition |
| Plans.Draw | crates/adb-planner/src/physical.rs:138-291 | the bottom-up loop over the nodes computes the specified draft or rejects the plan |
| Pipelines.DrawnExactly | crates/adb-planner/src/physical.rs:138-291 | a resolved plan is accepted if and only if it fits the pipeline: no filter or aggregation above a sort, a limit or an aggregation, no projection above a sort or a limit, one sort at most and below all limits, and only projections below an aggregation that together rename nothing |
| Pipelines.BuiltExactly | crates/adb-planner/src/physical.rs:138-364 | the planner builds a plan for a validated query if and only if it fits the pipeline; its check that sort keys survive the projection never fails, because no projection is above a sort |
| Physical.ProjectionCovers | crates/adb-planner/src/physical.rs:293-347 | the plan reads the columns that are needed and no others, or one column when none is |
| Plans.CoreMeans | crates/adb-planner/src/physical.rs:138-291 | for every resolved plan without limits that is not rejected, the draft means what the plan means, including the two orders of nodes the pipeline does not have |
| Plans.NestedLimitsExact | crates/adb-planner/src/physical.rs:272-283 | one limit over another is the tighter one with the offsets added if and only if the outer offset is zero, or the outer window ends within the inner one, or a limit is zero |
| Plans.LimitsExact | crates/adb-planner/src/physical.rs:272-283 | limits nested to any depth are the tightest of them with the offsets added, on every addressable result, if and only if what both let through ends at the same row |
| Physical.LoweringPreservesMeaning | crates/adb-planner/src/physical.rs:138-364 | the pipeline returns exactly the plan's rows in order, if the limits agree with the tightest of them and a projection above an aggregation is labelled right |
| Physical.ZeroOffsetsAgree | crates/adb-planner/src/physical.rs:272-283 | the limits agree with the tightest of them when every outer offset is zero |
| Physical.ProjectedBatchExact | crates/adb-exec/src/lib.rs:299-319 | a projection above the aggregation of a validated plan returns the right rows, for all rows that may reach the aggregation, if and only if it is labelled right, which can be read off the plan |
| Physical.SwapAccepted | crates/adb-planner/src/physical.rs:138-364 | two sums selected in the other order: the plan is resolved, the planner accepts it, and it is labelled wrong |
| Quantities.TablesExactly | crates/adb-exec/src/aggregate.rs:319-362 | over all tables, a projection of computed columns comes out right if and only if there are as many columns as are computed, each can hold what is computed at its position, and each one used by name computes what the name stands for, as the same function of the same column or as a grouping key's minimum, maximum or average |
| Labels.SwappedSilently | crates/adb-exec/src/aggregate.rs:319-362 | with two sums in the other order, each comes back under the other's name, without an error |
| Labels.ResultsTyped | crates/adb-planner/src/ir.rs:73-83 | over rows of the table's types, every computed column has the type validation gives it |
| Labels.CastMeans | crates/adb-exec/src/aggregate.rs:440-534 | a value put into an array of another type is of that type and the same number; dates keep the low 32 bits |
| AggStates.MergeIsOnePass | crates/adb-exec/src/aggregate.rs:57-145 | merging the accumulators of two stretches of rows is one pass over both, if the integers of a sum are of one sign or its positive and its negative ones each sum within 64 bits |
| AggStates.AccumulateColumn | crates/adb-exec/src/aggregate.rs:364-429 | the vectorized path computes what the kernels give for the column, and what updating row by row does when the integers of a sum or average are within 64 bits on either side |
| AggStates.SplitExactly | crates/adb-exec/src/aggregate.rs:57-145 | integers whose positive ones sum to at most p and whose negative ones to at most n can be summed in two parts, wherever they are split, if and only if p or n is zero or both are within 64 bits |
| AggStates.KernelExactly | crates/adb-exec/src/aggregate.rs:364-429 | for sums and for averages of such a column, the vectorized path gives what updating row by row does, whatever the values, if and only if p and n are within 64 bits: its addition wraps around |
| Summaries.FinishedMeans | crates/adb-exec/src/aggregate.rs:57-175 | over all inputs, a count is the number of values, a sum their sum, exact within 64 bits, an average the sum over the number, and a minimum or maximum the first least or greatest of them; without values a count is zero and the others null |
| Summaries.ResultsMean | crates/adb-exec/src/aggregate.rs:227-362 | the result has one row for every key, in order of first appearance, with the key and every aggregate over exactly the rows of the key; without grouping columns, one row over all rows |
| Summaries.KeyRowsExactly | crates/adb-exec/src/aggregate.rs:227-297 | the rows of a group are exactly those with its key, as often as they occur |
| Aggregation.MergedIsOnePass | crates/adb-exec/src/aggregate.rs:299-317 | merging two partial tables of groups is one pass over both row sequences, keys in order of first appearance, if every group's integer sums can be split |
| Aggregation.Aggregator.Update | crates/adb-exec/src/aggregate.rs:227-297 | after a batch, the table is that of the rows seen so far and the batch, if the integer sums are within the bound of their path: splittable when grouped, 64 bits on either side when not |
| Aggregation.Aggregator.Merge | crates/adb-exec/src/aggregate.rs:299-317 | after a merge, the table is that of both row sequences, under the same bound |
| Aggregation.Aggregator.Finish | crates/adb-exec/src/aggregate.rs:319-362 | the result batch is the groups' tuples, named and cast by the final output columns by position; nothing when there are fewer columns or a value does not fit |
| Aggregation.RunAggregate | crates/adb-exec/src/lib.rs:149-190 | partial tables per partition, merged, give the result batch of one pass over all the rows, under the same bound |
| Snapshots.VisibleCounted | crates/adb-storage/src/table.rs:95-107 | the row count computed from metadata is the number of visible rows |
| Execution.ScanPartition | crates/adb-exec/src/scan.rs:25-89 | the batches given to the sink are the filtered visible rows of the segments that are not pruned, and of the buffer, in order; stopped early, a prefix of at least as many rows as asked for |
| Execution.PruningInvisible | crates/adb-exec/src/prune.rs:13-68 | if the pruned conjuncts compare no JSON column, filtering what is read after pruning gives the same rows as filtering everything visible |
| Execution.EarlyStopExact | crates/adb-exec/src/lib.rs:116-146 | when every partition stops early, the first rows of the concatenation are those of the full scan |
| Execution.MetadataCountExact | crates/adb-exec/src/lib.rs:220-245 | the count from metadata is the plan's meaning, for any nesting of limits, if and only if the projection keeps its name and the limits keep its row |
| Execution.Execute | crates/adb-exec/src/lib.rs:67-113 | execution returns the metadata count when it applies, and otherwise what the specified pipeline makes of the visible rows that are not pruned |
| Execution.Answer | crates/adb-exec/src/lib.rs:54-113 | a validated query is answered with what it means, if its plan is trustworthy, which can be read off the plan: no JSON column is compared by a pruned conjunct, the limits agree with the tightest of them and a projection above an aggregation is labelled right; a count from metadata keeps its row and its name |
| Execution.UsuallyTrustworthy | crates/adb-exec/src/lib.rs:54-113 | over a table without JSON columns, a plan is trustworthy when it does not count from metadata, no limit above another one skips rows and nothing is projected above an aggregation |
| Validation.CheckAgain | crates/adb-planner/src/validate.rs:367-525 | checking a checked expression again changes nothing: literals are coerced once |
| Validation.ValidateAgain | crates/adb-planner/src/validate.rs:36-297 | validating a validated plan gives the identical plan and schema and clamps nothing, if and only if the scan names columns or the table has one that is not sensitive; otherwise it is rejected |
| Validation.ValidateSound | crates/adb-planner/src/validate.rs:53-297 | a plan that passes validation is resolved: every reference is a column of its node's input, output names are used once, aggregates are of columns they apply to, and the schema is the plan's |
| Requests.CheckExactly | crates/adb-planner/src/validate.rs:367-525 | a condition is accepted if and only if it makes sense over the columns; its type is as stated, and its operators, columns and negations stay the same, literals being read as the type they meet: one of the type stays itself, and a number stays the same number within 64 bits |
| RequestedPlans.DefaultExactly | crates/adb-core/src/schema.rs:274-280 | the default projection has exactly the columns that are not sensitive, in order |
| RequestedPlans.TypesExactly | crates/adb-planner/src/validate.rs:85-110 | every column of the table has its declared type |
| RequestedPlans.ValidateExactly | crates/adb-planner/src/validate.rs:36-297 | a query is accepted if and only if it makes sense over the table and has a column; its plan is the query node by node, with the scan's columns and the aliases spelt out, limits at most the table's, and literals read as the types they meet |
| RequestedPlans.OnePlan | crates/adb-planner/src/validate.rs:36-297 | a query asks for one plan only |
| RequestedPlans.DenoteFollows | crates/adb-planner/src/validate.rs:36-297 | the plan returns the rows of the query itself, its conditions as they are, if these compare with literals of the columns' types or numbers within 64 bits |
| Engine.BuiltNamesColumns | crates/adb-planner/src/physical.rs:337-347 | a validated plan whose default projection is empty is rejected by the planner, because there is nothing to read |
| Engine.AcceptedExactly | crates/adb-engine/src/engine.rs:597-631 | validation and the planner accept a query if and only if it makes sense over the table, has a column, names what it scans and fits the pipeline, and the plan is the one it asks for |
| Engine.RunPlan | crates/adb-engine/src/engine.rs:597-631 | any query over any table is rejected if and only if it cannot run, and otherwise answered with what the plan it asks for means, or with the rows of the query itself if its conditions are plain, if the plan is trustworthy |

## Findings

Where the code and what it promises differ, the model follows the code.

- **A projection above an aggregation can return wrong columns.** `finish` names and types the computed columns by
  position from the plan's final output, and `apply_rename` then looks the projection's sources up among those names.
  Selecting `y, x` from `sum(a) as x, sum(b) as y` swaps the two silently (`Labels.SwappedSilently`,
  `Physical.SwapAccepted`); renaming a column there fails with "not found", and dropping one indexes past the output.
  It is right exactly under `Physical.LabelsRight` (`Quantities.TablesExactly` and `Physical.ProjectedBatchExact`).
- **Oversized log records.** `append` checks the length truncated to 32 bits. A payload of 2^32 + r bytes, r at most
  2^30, is acknowledged and is not readable afterwards (`Wal.AppendReadable` has the exact condition).
- **A torn header.** A crash while the eight header bytes of a new log are written leaves a partition that can never
  be opened (`Reopening.TornHeaderFatal`).
- **Nested limits.** The planner takes the tighter limit and adds the offsets, which differs from the plan when an outer
  offset is not zero and the outer window passes the end of the inner one (`Plans.NestedLimitsExact`;
  `Plans.LimitsExact` for any depth).
- **Counts from metadata** ignore the projection, the limit and the offset of the plan (`Execution.MetadataCountExact`).
- **Pruning and JSON.** JSON columns have no minimum and maximum, which pruning takes for "all null": segments with
  matching rows are skipped. Pruning is safe exactly under `Pruning.PruneExactly`'s condition.
- **Compaction without a ratio.** With a suppressed ratio of zero, one live segment is rewritten for ever
  (`Compaction.RestsExactly`).
- **Base64.** Padding inside a text and spare bits that are not zero are accepted (`Base64.CanonicalExact`).
- **Float literals for integer columns** outside 64 bits are read as the nearest bound, so that they compare as another
  number (`Requests.ReadAs`, `RequestedPlans.Plain`).
- **A float of 2^63** is hashed as the integer below it (`Bloom.CanonicalExactly`).
- **Saturating sums** over integers depend on how rows are split over partitions as soon as values of both signs may
  leave 64 bits; `AggStates.SplitExactly` has the exact bounds.
- **Sums and averages without a group** go through a kernel that wraps around where the row by row path saturates or
  has no bound (`AggStates.KernelExactly`).
- **Deleted counts** count a key that is given twice, twice (`Routing.DeletedCount`).
- **Validating again** fails when the default projection is empty (`Validation.ValidateAgain`).

## Left out

- Partitions.Partition.AppendRows: requires that the record's encoding is shorter than 2^32 bytes; the code accepts
  longer ones, and `Wal.AppendReadable` says what becomes of them.
- Partitions.Partition.DeleteKeys: requires the same of its record.
- Tables.TableStore.Write: requires the same of the partitions' records; how many segments it reports flushed is not
  specified.
- Tables.TableStore.Delete: requires the same of the partitions' records.
- Partitions.Partition.LogRows: requires the same of its record.
- LogStore.FileLogStore.Append: requires the same of its record.
- Aggregation.Aggregator.Update: requires integer sums within the bounds of `AggStates.SplitExactly` and, without a
  group, `AggStates.KernelExactly`, where merging and the vectorized path are exact.
- Aggregation.Aggregator.Merge: requires the same.
- Aggregation.MergedIsOnePass: requires the same.
- Aggregation.RunAggregate: requires the same, and columns whose values have their declared types.
- Pruning.PruningSound: integers in rows and literals are 64 bits wide, as the program's are.
- Pruning.PruneExactly: the same.
- AggStates.MergeIsOnePass: gives a bound on the two sums that is exact over all rows within it; single rows beyond it
  may still come out the same.
- Summaries.FinishedMeans: an integer sum that leaves 64 bits with values of both signs saturates row by row, which has
  no closed form here.
- RequestedPlans.DenoteFollows: a literal given for a time or a date, or changed within an arithmetic expression, is
  read as `Requests.ReadAs` says; the query as it stands has no meaning of its own there.
- Execution.Answer: says nothing about the rows when a plan is not trustworthy; `Execution.Execute` does.
- Physical.ProjectedBatchExact: quantifies over the rows that may reach the aggregation; a filter that lets few of them
  through can hide a wrong label.
- Physical.LoweringPreservesMeaning: a sort with a limit is a prefix of the full sort, though the library may break ties
  between equal keys differently.
- Crash.CrashRecovers: manifest replacement, log truncation and file deletion are atomic steps, as the object store
  promises; I/O errors are not modelled.
- Reopening.StatementCrash: a statement over several partitions is not atomic in the program either; what is proved is
  that each partition's part is.
- Schema evolution, and schema records in the log; rows read with columns added later.
- Primary keys compare structurally; the program's keys also take an integer and the equal float for the same key.
- An expression that fails to evaluate selects no row, where the program reports an error.
- Floating point rounding and NaN; overflow of log sequence numbers and row ordinals.
- Locks and readers: a read view is taken at one moment, and files that compaction deletes under it are not modelled.
- Row and byte budgets and deadlines; threads are taken in partition order; warnings and statistics.
- Which error validation reports, and nullability; the wire form of plans.
- The arithmetic of the hash functions and of the sizes of Bloom filters; Parquet, Arrow, Roaring and bincode formats.
- Catalog, tenants, authorization, the HTTP and MCP servers, natural-language requests, the command line.
