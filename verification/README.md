# PrehniteDB, modelled and verified in Dafny

This project models the parts of PrehniteDB whose correctness is hardest to see from the code, and
proves what they promise for every input, every reachable state and every interleaving:

* the commit log's group commit and truncation as a step machine over its lock-protected sections,
  down to the bytes of the file (`CommitLog`, `GroupCommit`, `GroupCommitSafety`);
* snapshots, the reclaim watermark, log truncation and serialisable isolation over whole runs of the
  transaction coordinator (`Transactions`, `TransactionSafety`, `SsiSafety`);
* order-preserving index keys, leftmost-prefix planning, index scans, and online CREATE INDEX under the
  table lock (`IndexKeys`, `AccessPaths`, `IndexScans`, `OnlineIndex`);
* the row evaluator and the primitive encodings, each against its own definition: three-valued laws,
  exact arithmetic, byte order, UTF-8, binary64 (`EvaluationLaws`, `EncodingMeaning`);
* query operators whose fast form refines a simple one: external merge sort, six join operators,
  columnar evaluation, the parallel scan (`RowCodec`, `StableSort`, `SortMeaning`, `ExternalSort`,
  `JoinSpec`, `JoinNarrowing`, `JoinRefinement`, `IndexJoinOnline`, `JoinOperators`, `ColumnBatches`,
  `Columnar`, `BatchOperators`, `ParallelScan`);
* planner rewrites that must keep meaning: join reordering and subqueries turned into semi- and
  anti-joins (`JoinOrder`, `JoinCost`, `JoinReorder`, `JoinChain`, `JoinReorderSafety`, `Subqueries`,
  `SubqueryMeaning`, `SubqueryRewrite`, over `ScopeChange`);
* slotted pages in a 4096-byte buffer (`SlottedPage`, `PageSearch`).

`Bytes`, `Values`, `Expressions`, `Sequences` and `RowOperators` hold what these share. `dafny verify
dfyconfig.toml` checks the whole project.

Conventions. A B+tree is its ordered content; a file is a byte sequence; TEXT is its UTF-8 bytes; REAL
is a 64-bit pattern ordered by the totalOrder predicate of section 5.10 of IEEE 754-2008, with its
arithmetic left open in the record `Fpu`. Integers are unbounded and every width that matters is
written out: 64-bit overflow in expressions, 32-bit lengths, 128-bit saturating costs, 64-bit mask
words. Opposite zeros are -0.0 and 0.0, equal to WHERE's comparison and apart in the bit order of keys.
Objects the source mutates are classes; each lock-protected section of a concurrent object is one method
and one step. Time, randomness (the hash seed) and I/O results are parameters.

Where the source's comments promise more than its code gives, the code is modelled as it is, a lemma
shows the failing case, and the exact condition under which the promise holds is proved: failed
flushes, torn log tails, the watermark against older snapshots, truncation of rolled-back deletes and
unrecorded inserts, write skew after a commit, -0.0 in index scans and in hash and index joins, NOT IN
with a NULL outer value, EXISTS over an aggregate, joins through an index still being built, errors
inside a parallel filter, NULL operands in columnar arithmetic.

## Model

| member | source | states |
|---|---|---|
| CommitLog.EncodeBatch | crates/prehnitedb/src/engine/clog.rs:477-504 | the bytes a flush appends are the concatenated 9-byte records, in batch order |
| CommitLog.LogLayout | crates/prehnitedb/src/engine/clog.rs:147-177 | a record is the transaction id in eight bytes and then 1 for committed or 2 for rolled back; the file begins with eight bytes of magic and the floor |
| CommitLog.Open | crates/prehnitedb/src/engine/clog.rs:269-336 | opening decodes the header floor and replays every whole record, last record of an id winning; a short header, a bad magic or an unknown status byte is an error; a torn tail is ignored |
| CommitLog.OpenImage | crates/prehnitedb/src/engine/clog.rs:147-177 | a floor and any list of records written as a file, followed by any torn record, reopens as that floor and exactly the replay of those records |
| CommitLog.AppendAfterReopen | crates/prehnitedb/src/engine/clog.rs:317-322 | every single record appended after a reopen decodes back behind the records before it, if and only if the file had no torn tail |
| CommitLog.TornAppendIsCorrupt | crates/prehnitedb/src/engine/clog.rs:317-322 | after any torn tail some single append makes the file fail to reopen, because appends resume at the raw end of file |
| CommitLog.ReplayEnumeration | crates/prehnitedb/src/engine/clog.rs:594-602 | replaying any enumeration of a status map, as truncation writes it, gives back that map |
| GroupCommit.Clog.Enqueue | crates/prehnitedb/src/engine/clog.rs:395-408 | the record joins the queue under the next LSN and nothing else changes |
| GroupCommit.Clog.TryLead | crates/prehnitedb/src/engine/clog.rs:415-436 | a caller whose LSN is durable returns; otherwise it waits while a flush runs, or drains the whole queue and takes the flush slot |
| GroupCommit.Clog.WriteAndFsync | crates/prehnitedb/src/engine/clog.rs:477-504 | the file grows by exactly the batch's records; a write cut short after any number of bytes leaves exactly those, a failing sync all of them, and both are errors |
| GroupCommit.Clog.Publish | crates/prehnitedb/src/engine/clog.rs:443-464 | a successful flush publishes the batch into the map and raises the durable LSN to the snapshot; a failed one only frees the slot |
| GroupCommit.Clog.Status | crates/prehnitedb/src/engine/clog.rs:346-352 | ids below the floor read as committed, others as the map says |
| GroupCommit.Clog.BeginTruncate | crates/prehnitedb/src/engine/clog.rs:573-602 | a floor that does not advance is a no-op; otherwise the slot is taken and the kept records enumerate exactly the statuses at or above the floor |
| GroupCommit.Clog.SwapFile | crates/prehnitedb/src/engine/clog.rs:604-687 | the file becomes the complete image of the new floor and the kept records; a failure before the rename leaves the old file, one after it the new, and both free the slot |
| GroupCommit.Clog.PublishTruncate | crates/prehnitedb/src/engine/clog.rs:689-698 | the map keeps exactly the ids at or above the floor, and the slot is freed |
| GroupCommitSafety.StepKeepsInv | crates/prehnitedb/src/engine/clog.rs:395-699 | every lock-protected section of every thread, including a flush that fails after any number of records and part of another, and every phase and failure of truncation, keeps the protocol invariant |
| GroupCommitSafety.RunKeepsInv | crates/prehnitedb/src/engine/clog.rs:395-699 | the invariant holds in every state of every interleaving of appenders and truncators; with no failed flush nothing is ever lost, and from a file with no torn record and with no torn flush the file always holds whole records |
| GroupCommitSafety.OneFlusher | crates/prehnitedb/src/engine/clog.rs:415-446 | in every state of every run at most one thread holds the flush slot, and with no failed flush a leader's batch is never empty |
| GroupCommitSafety.AcknowledgedIffNotLost | crates/prehnitedb/src/engine/clog.rs:395-466 | an append that returned Ok has its LSN at or below the durable LSN; its record is published if and only if no failed flush lost it, then it is in the file too, and neither holds it twice |
| GroupCommitSafety.AppendedInOrder | crates/prehnitedb/src/engine/clog.rs:395-504 | with no failed flush the file receives every drained record exactly once, in LSN order |
| GroupCommitSafety.VisibleIsDurable | crates/prehnitedb/src/engine/clog.rs:443-464 | in every state the map holds no status whose record is not already in the file's history |
| GroupCommitSafety.CrashAnywhere | crates/prehnitedb/src/engine/clog.rs:269-336 | reopening after a crash in any state in which nothing was written behind a torn record, with any torn record left at the end, gives the file's complete floor and the last appended status of every id at or above it |
| GroupCommitSafety.ReceivedReadsBack | crates/prehnitedb/src/engine/clog.rs:269-336 | a record the file received, acknowledged or not and whether or not its flush failed, reads back after a crash, unless it fell below the floor or its transaction has another record |
| GroupCommitSafety.AcknowledgedReadsBack | crates/prehnitedb/src/engine/clog.rs:346-352 | an acknowledged outcome that no failed flush lost reads back as recorded, from memory and after a crash, unless it fell below the floor |
| GroupCommitSafety.RenameKeepsStatuses | crates/prehnitedb/src/engine/clog.rs:643-664 | the rename of truncation swaps in a complete image that gives every id at or above the new floor its published status, and the status the old file gave it unless a failed flush left records there |
| GroupCommitSafety.FailedFlushLosesAcknowledged | crates/prehnitedb/src/engine/clog.rs:415-466 | a run in which a flush fails and a follower of the lost batch then succeeds with an empty batch: acknowledged, never written |
| GroupCommitSafety.FailedAppendSurvivesCrash | crates/prehnitedb/src/engine/clog.rs:443-504 | a run in which an append reports an error and nobody sees its outcome, and a reopened log holds it |
| Transactions.TxState.BeginWrite | crates/prehnitedb/src/engine/transaction.rs:613-624 | the next id is taken, marked in flight and given an empty SSI slot, and nothing else changes |
| Transactions.TxState.FinishWrite | crates/prehnitedb/src/engine/transaction.rs:629-649 | the outcome is recorded, then the id leaves the in-flight set and the SSI map, as three sections in that order |
| Transactions.TxState.TakeSnapshot | crates/prehnitedb/src/engine/transaction.rs:599-609 | a snapshot captures the next id and the whole in-flight set |
| Transactions.TxState.OldestActiveTxId | crates/prehnitedb/src/engine/transaction.rs:674-682 | the least id in flight, or the next id when none is |
| Transactions.TxState.RecordRead | crates/prehnitedb/src/engine/transaction.rs:134-155 | locks the tuple, and marks reader and deleter when a registered peer is tombstoning it |
| Transactions.TxState.RecordLock | crates/prehnitedb/src/engine/transaction.rs:163-171 | adds one relation or index-range lock to a registered transaction |
| Transactions.TxState.RecordWrite | crates/prehnitedb/src/engine/transaction.rs:181-323 | marks the writer in and every registered peer holding a covering lock out, for tuple writes, inserts and index writes; what covers is pinned by `CoversIffConflicts` |
| Transactions.TxState.SsiCheckCommit | crates/prehnitedb/src/engine/transaction.rs:655-665 | refuses exactly a registered transaction with both flags set |
| TransactionSafety.PerformStep | crates/prehnitedb/src/engine/transaction.rs:613-649 | the coordinator object moves exactly as the step machine does |
| TransactionSafety.StepSound | crates/prehnitedb/src/engine/transaction.rs:599-682 | begin, publish, in-flight removal and truncation keep records and in-flight ids below the next id and the floor at or below the watermark, and never lower the watermark |
| TransactionSafety.VisibleBySees | crates/prehnitedb/src/engine/transaction.rs:335-369 | visibility depends on the log only through which ids count as finished for the snapshot |
| TransactionSafety.SnapshotStable | crates/prehnitedb/src/engine/transaction.rs:335-369 | in every run without truncation `visible` on a snapshot gives, at every later state and for every pair of ids, the answer it gave when taken |
| TransactionSafety.SeesExactly | crates/prehnitedb/src/engine/transaction.rs:599-649 | at any later time the foreign transactions a snapshot sees are exactly those recorded committed and no longer in flight when it was taken |
| TransactionSafety.WatermarkMonotone | crates/prehnitedb/src/engine/transaction.rs:674-682 | the reclaim watermark never decreases along a run, truncation included |
| TransactionSafety.ReclaimedInvisible | crates/prehnitedb/src/engine/database.rs:777-790 | a row reclaim removes at watermark w is invisible to every snapshot whose next id, captured in-flight ids and own id are all at or above w |
| TransactionSafety.ReclaimedInvisibleForever | crates/prehnitedb/src/engine/database.rs:752-834 | a row found dead under some moment's watermark is invisible to every snapshot taken from then on, at any later use |
| TransactionSafety.ReclaimSafeIff | crates/prehnitedb/src/engine/transaction.rs:667-682 | reclaiming at w hides nothing from a snapshot, with or without an own id, if and only if every committed foreign id below w is finished for it and its own transaction is not rolled back below w |
| TransactionSafety.OlderSnapshotLosesRow | crates/prehnitedb/src/engine/transaction.rs:674-682 | a run in which a snapshot taken while the deleter was in flight still sees a row that is already reclaimable |
| TransactionSafety.TruncationInvisibleIff | crates/prehnitedb/src/engine/clog.rs:346-352 | truncating to a floor leaves a row's visibility unchanged for all snapshots at or above the floor if and only if its ids meet an explicit condition on recorded outcomes |
| TransactionSafety.SurvivorAffectedIff | crates/prehnitedb/src/engine/database.rs:779-789 | a row that survived reclaim is affected by truncation exactly when its deleter below the floor never committed while its creator counts, or its creator below the floor has no record |
| TransactionSafety.AffectedOnlyByRolledBackDelete | crates/prehnitedb/src/engine/database.rs:1089-1106 | in a run that started with every finished id recorded, the only affected survivors are those whose delete was rolled back |
| TransactionSafety.TruncationKeepsCommittedRows | crates/prehnitedb/src/engine/database.rs:1089-1106 | truncating to a floor captured earlier in the run keeps every later reader's view of rows whose ids below the floor are recorded committed |
| TransactionSafety.TruncationChangesSurvivors | crates/prehnitedb/src/engine/database.rs:779-789 | two concrete survivors whose meaning truncation changes: a rolled-back delete takes effect, an unrecorded insert appears |
| SsiSafety.PerformStep | crates/prehnitedb/src/engine/transaction.rs:134-323 | the SSI map of the coordinator object moves exactly as the step machine does |
| SsiSafety.ReadSetIsHistory | crates/prehnitedb/src/engine/transaction.rs:134-171 | in every reachable state a registered transaction's read set is exactly the locks its own steps took |
| SsiSafety.CoversIffConflicts | crates/prehnitedb/src/engine/transaction.rs:181-323 | for all three kinds of lock and of write a peer's lock is found exactly when the write changes something it protects: a relation lock protects every row of its table, future ones included, a tuple lock one rowid, a range lock the index entries in its range |
| SsiSafety.FlagsAreExact | crates/prehnitedb/src/engine/transaction.rs:134-323 | in every reachable state a registered transaction has `out_conflict` iff some rw-dependency leaves it and `in_conflict` iff some rw-dependency enters it, dependencies being defined on the history of locks and writes by what locks protect and writes change |
| SsiSafety.CommitRefusedIffPivot | crates/prehnitedb/src/engine/transaction.rs:655-665 | the commit check refuses a registered transaction if and only if it has a dependency in and one out |
| SsiSafety.WriteSkewRefused | crates/prehnitedb/src/engine/transaction.rs:613-665 | when each of two registered transactions has written over something the other had locked before, neither passes its commit check |
| SsiSafety.InsertAfterScanIsEdge | crates/prehnitedb/src/engine/transaction.rs:216-239 | a full scan followed by a peer's insert into the table leaves the dependency reader to writer and sets both flags |
| SsiSafety.InsertSkewRefused | crates/prehnitedb/src/engine/transaction.rs:216-239 | two registered transactions that each scan a table and then each insert into it are both refused |
| SsiSafety.PhantomMarked | crates/prehnitedb/src/engine/executor.rs:1652-1668 | a peer insert of a row satisfying the reader's whole WHERE clause, after the reader opened its index scan, leaves the dependency reader to writer and sets both flags, whatever the scan returned, if the lock covers the row's key |
| SsiSafety.RangeLockCovers | crates/prehnitedb/src/engine/executor.rs:1652-1668 | the range lock covers the key of a row the WHERE clause keeps if and only if no predicate the plan uses compares -0.0 with 0.0 in it |
| SsiSafety.SkewAfterCommitPasses | crates/prehnitedb/src/engine/transaction.rs:629-638 | a run in which the first half of a write skew commits and unregisters before the second writes, and both pass |
| IndexKeys.EncodeTextLoop | crates/prehnitedb/src/engine/codec.rs:499-512 | the byte-by-byte text loop writes the escaped, terminated encoding |
| IndexKeys.EncodeIndexKey | crates/prehnitedb/src/engine/codec.rs:518-525 | the key is the concatenated column encodings followed by the rowid |
| IndexKeys.EncodeValueOrder | crates/prehnitedb/src/engine/codec.rs:474-512 | for two values of one column type, byte order of encodings is ORDER BY order, and no encoding is a proper prefix of another |
| IndexKeys.EncodeTupleOrder | crates/prehnitedb/src/engine/codec.rs:518-525 | byte order of keys is lexicographic `order_values` order of tuples, whatever follows breaking ties |
| IndexKeys.EncodeTupleInjective | crates/prehnitedb/src/engine/codec.rs:518-525 | equal encodings come from equal tuples |
| IndexKeys.IndexKeyDeterminesRowid | crates/prehnitedb/src/engine/codec.rs:518-525 | equal index keys carry the same rowid, whatever the rows hold |
| IndexKeys.PrefixUpperBound | crates/prehnitedb/src/engine/codec.rs:530-539 | the pop-and-bump loop computes the specified bound |
| IndexKeys.UpperBoundIsExact | crates/prehnitedb/src/engine/codec.rs:530-539 | s is below the bound iff s is below the prefix or starts with it; there is no bound iff the prefix is all 0xFF |
| EncodingMeaning.LessMeaning | crates/prehnitedb/src/engine/codec.rs:518-539 | byte-lexicographic order is decided at the first difference |
| Values.CompareAgreesWithOrder | crates/prehnitedb/src/engine/executor.rs:5244-5257 | on non-NULL values of one type WHERE's comparison and ORDER BY's order agree if and only if neither is NaN and they are not -0.0 and 0.0 |
| Values.OrderValuesTransitive | crates/prehnitedb/src/engine/executor.rs:3632-3646 | `order_values` is transitive within one column type |
| EncodingMeaning.OrderMeaning | crates/prehnitedb/src/engine/executor.rs:3632-3646 | NULL first, FALSE before TRUE, numbers by size and texts by bytes |
| EncodingMeaning.RealComparison | crates/prehnitedb/src/engine/executor.rs:5244-5257 | `<` and `=` on REALs compare the numbers the binary64 patterns denote by section 3.4 of IEEE 754-2008, and err exactly on NaN |
| EncodingMeaning.NaNMeaning | crates/prehnitedb/src/engine/executor.rs:5244-5257 | a pattern is NaN exactly when its exponent is all ones and its fraction is not zero |
| EvaluationLaws.NegatedComparisons | crates/prehnitedb/src/engine/executor.rs:5227-5242 | `<>`, `>=` and `<=` are the three-valued negations of `=`, `<` and `>`, for all values |
| EvaluationLaws.NegatedComparisonExprs | crates/prehnitedb/src/engine/executor.rs:5227-5242 | the same of expressions on any row: `x <> y` is `NOT (x = y)`, and so on, errors included |
| EvaluationLaws.Trichotomy | crates/prehnitedb/src/engine/executor.rs:5227-5257 | of comparable values exactly one of `<`, `=` and `>` holds |
| EvaluationLaws.ReadBackwards | crates/prehnitedb/src/engine/executor.rs:5227-5257 | `>` is `<` read backwards, and `=` is symmetric |
| EvaluationLaws.ComparisonMeaning | crates/prehnitedb/src/engine/executor.rs:5227-5257 | on one type `=` is being the same value or the two zeros, `<` is coming first in ORDER BY without being the two zeros, and only NaN errs |
| EvaluationLaws.MixedKindsErr | crates/prehnitedb/src/engine/executor.rs:5244-5257 | values of different kinds that are not both numbers cannot be compared |
| EvaluationLaws.IntegerArithmetic | crates/prehnitedb/src/engine/executor.rs:5188-5225 | addition, subtraction and multiplication give the exact integer, or an error exactly when it does not fit 64 bits |
| EvaluationLaws.SubtractionUndoesAddition | crates/prehnitedb/src/engine/executor.rs:5188-5225 | subtraction undoes addition and addition subtraction |
| EvaluationLaws.IntegerDivision | crates/prehnitedb/src/engine/executor.rs:5188-5225 | division gives the one quotient whose remainder is smaller than the divisor and zero or of the dividend's sign, and errs exactly for a zero divisor or a quotient that does not fit |
| EvaluationLaws.RealArithmetic | crates/prehnitedb/src/engine/executor.rs:5188-5225 | where the processor's operations are exact each REAL operator computes its own operation, and only division by a zero errs |
| EvaluationLaws.MixedNumbers | crates/prehnitedb/src/engine/executor.rs:5188-5257 | an INT beside a REAL counts as the REAL it converts to |
| EvaluationLaws.ArithmeticOnOthers | crates/prehnitedb/src/engine/executor.rs:5188-5225 | a NULL operand makes arithmetic NULL, any other operand that is no number is an error |
| EvaluationLaws.Negation | crates/prehnitedb/src/engine/executor.rs:5157-5178 | negating twice is nothing; an INT becomes its exact opposite, a REAL its mirror image |
| EvaluationLaws.TruthTables | crates/prehnitedb/src/engine/executor.rs:5260-5279 | AND and OR by when they are TRUE, FALSE, NULL and an error |
| EvaluationLaws.DeMorgan | crates/prehnitedb/src/engine/executor.rs:5157-5279 | De Morgan's laws on any row, errors matching errors |
| EvaluationLaws.NullTest | crates/prehnitedb/src/engine/executor.rs:4534-4538 | IS NULL is TRUE exactly where the operand is NULL and FALSE at every other value, and IS NOT NULL is its negation |
| EvaluationLaws.NotInIsNegation | crates/prehnitedb/src/engine/executor.rs:5126-5152 | NOT IN is the negation of IN on any row |
| EvaluationLaws.InListByParts | crates/prehnitedb/src/engine/executor.rs:5126-5142 | IN a longer list is equality with its first element or IN the rest; IN the empty list is FALSE, or NULL when the list held a NULL |
| EvaluationLaws.Coercion | crates/prehnitedb/src/engine/batch.rs:194-242 | a value is stored exactly when it has the column's type or is an INT going into a REAL column, and only then does it change |
| AccessPaths.ClassifySound | crates/prehnitedb/src/engine/planner.rs:532-570 | a conjunct that is TRUE on a row, with the literal on either side and after coercion, bounds the row's column as classified, if and only if column and literal are not zeros of the wrong signs |
| AccessPaths.ClassifyExact | crates/prehnitedb/src/engine/planner.rs:532-570 | for a column value that is not NULL, not NaN and no zero opposed to the literal's, the conjunct is TRUE exactly when the value lies where the predicate says |
| AccessPaths.ClassifiedIff | crates/prehnitedb/src/engine/planner.rs:532-570 | a conjunct is classified exactly when it compares a column with a literal its type takes, by `=`, `<`, `<=`, `>` or `>=`, on either side |
| AccessPaths.BuildIndexScan | crates/prehnitedb/src/engine/planner.rs:585-659 | the planner loop computes the leftmost-prefix plan: pinned columns, then at most one range, as a byte range |
| AccessPaths.RangeIsExact | crates/prehnitedb/src/engine/planner.rs:585-659 | a row's key falls in the planned range if and only if the row holds the pinned values and the range predicates in use hold of the next column, NULLs included |
| AccessPaths.ChooseIndex | crates/prehnitedb/src/engine/planner.rs:417-481 | the chosen index is finished and its plan usable; no finished plan pins more columns, and with as many pins none has a range where the chosen one has none; earlier ones are worse |
| IndexScans.CollectByIndex | crates/prehnitedb/src/engine/executor.rs:3972-4065 | for any index contents: an error exactly when an entry of the range is too short or leads to no row, otherwise the visible rows the range leads to, each once, in index order |
| IndexScans.KeptRowInRange | crates/prehnitedb/src/engine/planner.rs:585-659 | a row the whole WHERE clause keeps has its key inside the planned range if and only if no predicate the plan uses compares -0.0 with 0.0 in it |
| IndexScans.IndexScanEqualsFullScan | crates/prehnitedb/src/engine/executor.rs:2338-2382 | over any index with no dangling key, scanning the chosen range and re-applying WHERE keeps the rows of a full scan, with multiplicity, if and only if every kept row has its entry and meets no such comparison |
| IndexScans.IndexScanMissesNegativeZero | crates/prehnitedb/src/engine/planner.rs:585-659 | WHERE y = 0.0 over a table holding -0.0: the full scan returns the row, the scan of an exact index does not |
| IndexScans.OrderMatchesIff | crates/prehnitedb/src/engine/planner.rs:487-499 | an ORDER BY is accepted as presorted exactly when it runs on from the pinned columns, ascending |
| IndexScans.PresortedScanIsSorted | crates/prehnitedb/src/engine/planner.rs:487-499 | every scan `order_matches` accepts already yields its kept rows in ORDER BY order, whatever values they hold |
| OnlineIndex.StepKeepsInv | crates/prehnitedb/src/engine/database.rs:873-932 | every step of writers, builders and reclaimer under the table lock keeps: no dangling entry, and every row indexed or about to be |
| OnlineIndex.FinishedIndexIsComplete | crates/prehnitedb/src/engine/database.rs:873-932 | in every state of every run a finished index points only at existing rows, and lacks only rows a running writer is about to index |
| OnlineIndex.FinishedIndexIsExact | crates/prehnitedb/src/engine/database.rs:873-932 | whenever no writer is inside a row, a finished index's key set equals the image of the table's rows |
| OnlineIndex.EveryIndexIsSound | crates/prehnitedb/src/engine/database.rs:873-932 | in every state of every run every index, finished or still being built, holds only keys of existing rows |
| OnlineIndex.FinishedIndexServesScans | crates/prehnitedb/src/engine/executor.rs:551-573 | whenever no writer is inside a row a finished index is exact in the sense the scan and join theorems use |
| OnlineIndex.TableStore.ReclaimDeadRows | crates/prehnitedb/src/engine/database.rs:752-834 | one table's pass removes exactly the dead rows, with their keys from every index, and counts them |
| OnlineIndex.TableStore.DeleteKeys | crates/prehnitedb/src/engine/database.rs:800-810 | the row's key leaves every index and nothing else does |
| OnlineIndex.TableStore.Populate | crates/prehnitedb/src/engine/executor.rs:551-573 | phase 2 adds exactly the keys of all scanned rows, tolerating those already present |
| RowCodec.AppendValues | crates/prehnitedb/src/engine/codec.rs:76-101 | the encoder loop appends the tagged encodings in column order |
| RowCodec.DecodeValues | crates/prehnitedb/src/engine/codec.rs:104-131 | the cursor-based decoder computes the specified parse: wrong tags, short input, invalid UTF-8 and trailing bytes are errors |
| RowCodec.DecodeRow | crates/prehnitedb/src/engine/codec.rs:134-167 | the same with the 16-byte MVCC header |
| RowCodec.Reader.Take | crates/prehnitedb/src/engine/codec.rs:421-430 | taking n bytes yields the next n and advances, or fails without moving |
| RowCodec.ValuesRoundTrip | crates/prehnitedb/src/engine/codec.rs:76-131 | decoding undoes encoding if and only if every text is well-formed UTF-8 shorter than 2^32 bytes |
| RowCodec.RowRoundTrip | crates/prehnitedb/src/engine/codec.rs:43-167 | the same for whole rows with their MVCC header |
| RowCodec.RowHeader | crates/prehnitedb/src/engine/codec.rs:43-75 | a stored row starts with its creator's and its deleter's id, eight bytes each, then the values |
| EncodingMeaning.ValidUtf8Iff | crates/prehnitedb/src/engine/codec.rs:104-131 | a text is accepted exactly when it is the UTF-8 encoding of Unicode scalar values by section 3 of RFC 3629 |
| EncodingMeaning.LittleEndianMeaning | crates/prehnitedb/src/engine/codec.rs:43-101 | little-endian bytes denote their sum weighted by powers of 256, and every number that fits is written as the bytes that denote it |
| StableSort.LeTransitive | crates/prehnitedb/src/engine/executor.rs:3069-3084 | the sort comparator is transitive on rows of one type |
| StableSort.SortIsStable | crates/prehnitedb/src/engine/executor.rs:3069-3084 | sorting orders the rows and keeps ties in input order |
| SortMeaning.ComparatorMeaning | crates/prehnitedb/src/engine/executor.rs:3069-3084 | the comparator puts a row first exactly when on the first key where the rows differ it holds the smaller value, or the greater one if that key is descending, and calls rows equal exactly when they agree on every key |
| SortMeaning.SortIsOrderBy | crates/prehnitedb/src/engine/executor.rs:3069-3084 | sorting yields the same rows, each pair ordered by the first key on which they differ in that key's direction, and rows that agree on every key as they came |
| SortMeaning.DescendingExample | crates/prehnitedb/src/engine/executor.rs:3069-3084 | ORDER BY DESC leaves 2, 1 as it is, ascending turns it round |
| StableSort.StableSortUnique | crates/prehnitedb/src/engine/executor.rs:3069-3084 | order and stability determine the result: any two sequences with both are equal |
| StableSort.MergeSorted | crates/prehnitedb/src/engine/executor.rs:6298-6306 | merging sorted runs by least head yields a sorted sequence |
| StableSort.MergeKeepsTies | crates/prehnitedb/src/engine/executor.rs:6298-6306 | the run-id tie-break keeps ties in run order |
| StableSort.ExternalSortIsStableSort | crates/prehnitedb/src/engine/executor.rs:6368-6443 | however the input is cut into runs, sorting each and merging them is one stable sort of the whole input |
| ExternalSort.SpillSortedRun | crates/prehnitedb/src/engine/executor.rs:6236-6258 | the run file holds the sorted buffer, each row length-prefixed |
| ExternalSort.NextRow | crates/prehnitedb/src/engine/executor.rs:6210-6224 | fewer than four bytes are the end of the run; a cut or undecodable row is an error, exactly then; otherwise the row and the rest, and a spilled row reads back as written |
| ExternalSort.BatchSort.DrainInput | crates/prehnitedb/src/engine/executor.rs:6368-6417 | cutting into runs at the threshold, spilling and opening the merge leaves exactly the stable sort of the input to be yielded |
| ExternalSort.BatchSort.PopHeap | crates/prehnitedb/src/engine/executor.rs:6298-6306 | the popped entry is the least row, the lowest run on ties |
| ExternalSort.BatchSort.NextSortedRow | crates/prehnitedb/src/engine/executor.rs:6420-6443 | each call yields the first of the remaining rows and leaves the rest |
| ExternalSort.SortAll | crates/prehnitedb/src/engine/executor.rs:6445-6462 | for every threshold and batch size the batches hold exactly what one stable sort of the input would, which is the input in ORDER BY order; only an input that reaches the threshold has to fit the spill format |
| JoinSpec.EmitMeaning | crates/prehnitedb/src/engine/executor.rs:2560-2637 | pairing a left row step by step yields what INNER, LEFT, CROSS, SEMI and ANTI joins declare for its matching rows |
| JoinSpec.EmitShape | crates/prehnitedb/src/engine/executor.rs:2560-2637 | a pairing join yields the left row followed by each accepted candidate, once per match, or alone and padded with NULLs when a LEFT join finds none |
| JoinSpec.EmitFailsIff | crates/prehnitedb/src/engine/executor.rs:2560-2637 | a pairing join fails on a left row if and only if ON errors on some candidate |
| JoinSpec.FindEquiJoinFinds | crates/prehnitedb/src/engine/executor.rs:1162-1208 | the chosen columns are an equality among the ON conjuncts, and one is found whenever there is one |
| JoinSpec.IsEqualityMeaning | crates/prehnitedb/src/engine/executor.rs:1183-1208 | a usable equality names a left column on one side and a column of the joined table of the same type on the other, in either order |
| JoinSpec.FindIndexJoinFinds | crates/prehnitedb/src/engine/executor.rs:1100-1156 | the chosen key resolves to a left column that some conjunct equates with the leading column of the chosen index |
| JoinSpec.FindIndexJoinMisses | crates/prehnitedb/src/engine/executor.rs:1100-1156 | a key is found whenever some conjunct equates a left column with the leading column of an index |
| JoinSpec.MatchSharesKey | crates/prehnitedb/src/engine/executor.rs:1183-1208 | when ON is TRUE the equated columns are non-NULL, and their encodings are equal if and only if they do not hold -0.0 and 0.0 |
| JoinNarrowing.NarrowJoinSameIff | crates/prehnitedb/src/engine/executor.rs:2560-2851 | a pairing join over fewer candidates raises no error the nested loop does not, and yields its multiset if and only if every left row keeps all its matches |
| JoinNarrowing.HashJoinEqualsNestedLoop | crates/prehnitedb/src/engine/executor.rs:2783-2851 | if the nested loop raises no error the hash join raises none, and it yields the same sequence, or even the same multiset, if and only if ON accepts no pair with opposite zeros in the equated columns |
| JoinNarrowing.HashJoinMissesNegativeZero | crates/prehnitedb/src/engine/executor.rs:5244-5257 | a pair equal only because -0.0 = 0.0 is found by the nested loop and lost by the hash join |
| JoinRefinement.GraceJoinEqualsNestedLoop | crates/prehnitedb/src/engine/executor.rs:2863-2992 | for any hash function, if the nested loop raises no error neither does the grace join, and it yields the same multiset if and only if ON accepts no pair with opposite zeros in the equated columns |
| JoinRefinement.GraceJoinEqualsHashJoin | crates/prehnitedb/src/engine/executor.rs:2863-2992 | for any hash function the grace join yields the multiset of the in-memory hash join |
| JoinRefinement.IndexJoinEqualsNestedLoop | crates/prehnitedb/src/engine/executor.rs:2643-2750 | over any index with no dangling key, if the nested loop raises no error neither does the index join, and it yields the same multiset if and only if every visible row some left row matches has its key in the index and no such pair has opposite zeros |
| JoinRefinement.ExactIndexServes | crates/prehnitedb/src/engine/executor.rs:2643-2750 | through an exact index only pairs with opposite zeros in the equated columns can be missed |
| IndexJoinOnline.JoinDuringBuild | crates/prehnitedb/src/engine/executor.rs:1100-1156 | the same if and only if in every state of every run of the online build, which `find_index_join` does not exclude; once the index is finished and no writer is inside a row, only opposite zeros can be missed |
| IndexJoinOnline.BuildingIndexMissesRow | crates/prehnitedb/src/engine/executor.rs:1149-1154 | a reachable state of the online build in which the planner picks the unfinished index, the nested loop finds a row and the index join finds none |
| JoinOperators.NestedLoopJoin.Next | crates/prehnitedb/src/engine/executor.rs:2560-2637 | each call yields the next row, the error or the end of the declared join stream, for all five join kinds |
| JoinOperators.BuildTable | crates/prehnitedb/src/engine/executor.rs:2783-2799 | the table groups the non-NULL-keyed rows by encoded key, in input order |
| JoinOperators.HashJoin.Next | crates/prehnitedb/src/engine/executor.rs:2801-2851 | each call yields the next row, the error or the end of the bucket-probing join stream |
| JoinOperators.IndexNestedLoopJoin.Lookup | crates/prehnitedb/src/engine/executor.rs:2675-2706 | none for NULL; otherwise the visible rows the probed range leads to, each once, or an error exactly on a corrupt entry |
| JoinOperators.IndexNestedLoopJoin.Next | crates/prehnitedb/src/engine/executor.rs:2709-2750 | over any index with no dangling key each call yields the next row, the error or the end of the index-probing join stream |
| JoinOperators.PartitionRows | crates/prehnitedb/src/engine/executor.rs:2886-2922 | each row lands, encoded, in the spill file of its key's partition, in input order |
| JoinOperators.ReadSpill | crates/prehnitedb/src/engine/executor.rs:3059-3066 | a spill file reads back as the rows written |
| JoinOperators.GraceHashJoin.Next | crates/prehnitedb/src/engine/executor.rs:2925-2978 | each call yields the next row of the partition-by-partition join stream, decoded spill files included |
| JoinOperators.BatchNestedLoopJoin.NextBatch | crates/prehnitedb/src/engine/executor.rs:6521-6583 | each call yields the next `size` rows of the nested-loop stream, resuming inside a left row; an error before the batch is full loses it |
| JoinOperators.BatchHashJoin.NextBatch | crates/prehnitedb/src/engine/executor.rs:6616-6699 | the same for the hash join stream |
| JoinOrder.AllVisited | crates/prehnitedb/src/engine/planner.rs:1212-1222 | `permute` visits every ordering that keeps the first k items in place |
| JoinOrder.OnlyOrderingsVisited | crates/prehnitedb/src/engine/planner.rs:1212-1222 | it visits nothing but orderings of the items |
| JoinOrder.Permute | crates/prehnitedb/src/engine/planner.rs:1212-1222 | the array ends as it began, and the visitor has seen exactly the specified orderings, the given one first |
| JoinOrder.ScoreOrdering | crates/prehnitedb/src/engine/planner.rs:1161-1185 | the cost loop computes the specified cost, whose meaning is `JoinCost.CostIsSum` |
| JoinCost.CostIsSum | crates/prehnitedb/src/engine/planner.rs:1161-1185 | the cost is the saturated sum of the intermediate sizes: a step with a predicate that links the new table to earlier ones leaves the larger of the two sizes, any other multiplies them, saturating |
| JoinCost.TiedOrderCost | crates/prehnitedb/src/engine/planner.rs:1161-1185 | an order tied at every step costs the saturated sum of its running largest tables, so at most the number of steps times the largest table |
| JoinCost.CrossProductCost | crates/prehnitedb/src/engine/planner.rs:1161-1185 | an order that starts with a cross product costs at least the saturated product of its first two tables |
| JoinCost.CheapestStartsTied | crates/prehnitedb/src/engine/planner.rs:1115-1127 | when some order is tied throughout and its bound is below the product of the first two tables of a cheapest order, that one starts with a tied pair |
| JoinCost.ThreeTables | crates/prehnitedb/src/engine/planner.rs:1161-1185 | three tables of ten rows: 200 starting with the untied pair, 20 starting with a tied one |
| JoinOrder.ChooseOrder | crates/prehnitedb/src/engine/planner.rs:1115-1127 | the chosen ordering is one of the tables, none is cheaper, and the given order wins every tie |
| JoinOrder.AssignPredicates | crates/prehnitedb/src/engine/planner.rs:1190-1207 | a predicate is listed at a step iff that step is the earliest with all its tables |
| JoinOrder.EarliestUnique | crates/prehnitedb/src/engine/planner.rs:1190-1207 | a predicate has at most one earliest step, so it is attached at most once |
| JoinReorder.ColumnHasOneTable | crates/prehnitedb/src/engine/planner.rs:1227-1250 | a column the analyser attributes to a table matches in no other table |
| JoinReorder.ColumnRefsMeaning | crates/prehnitedb/src/engine/planner.rs:1227-1250 | a column is attributed to a table exactly when its qualifier names the table, or the name is bare and that table's only |
| JoinReorder.RefsMeaning | crates/prehnitedb/src/engine/planner.rs:1227-1283 | a predicate is analysed exactly when it holds no aggregate, EXISTS or scalar subquery and every column is attributed, and it then touches exactly their tables |
| JoinReorder.ValueInAnyOrder | crates/prehnitedb/src/engine/planner.rs:1227-1283 | a predicate has the same value on any ordering of any tables that include those it touches |
| JoinChain.ChainRows | crates/prehnitedb/src/engine/planner.rs:1133-1154 | the rows of a left-deep chain are those of the row choices every step accepts, in order |
| JoinReorderSafety.KeptIffAllTrue | crates/prehnitedb/src/engine/planner.rs:1133-1154 | a chain keeps a choice of rows if and only if every predicate is TRUE on it, wherever soundly attached |
| JoinReorderSafety.ReorderKeepsRows | crates/prehnitedb/src/engine/planner.rs:1014-1156 | for any order and sound placement, if neither chain errors, the reordered chain yields the user's rows with multiplicity up to the permutation of columns |
| JoinReorderSafety.ChainNeverFails | crates/prehnitedb/src/engine/planner.rs:1014-1156 | if every predicate is boolean or NULL on all rows of the tables it touches, no ordering and no sound placement raises an error |
| JoinReorderSafety.ReorderKeepsMeaning | crates/prehnitedb/src/engine/planner.rs:1014-1156 | with such predicates the reordered chain raises no error and yields the user's rows with multiplicity up to the permutation of columns |
| JoinReorderSafety.ReorderInnerChain | crates/prehnitedb/src/engine/planner.rs:1014-1156 | outside the guards the user's chain; inside them a cheapest order for the tables each predicate touches, the user's own when none is cheaper, and otherwise every predicate attached exactly once, where all its tables are present |
| JoinReorderSafety.PlannedKeepsMeaning | crates/prehnitedb/src/engine/planner.rs:1014-1156 | whatever the planner hands on raises no error and yields the multiset of the user's chain up to the permutation of columns, when ON clauses mention only joined tables and never err |
| JoinReorderSafety.UserPlacementSound | crates/prehnitedb/src/engine/planner.rs:1086-1113 | the user's own placement is sound when every ON clause mentions only tables already joined |
| ColumnBatches.PushBit | crates/prehnitedb/src/engine/batch.rs:326-336 | appending a bit keeps every earlier bit and the packed-word layout |
| ColumnBatches.AllValid | crates/prehnitedb/src/engine/batch.rs:312-323 | every bit below the row count is set and none above |
| ColumnBatches.PushValue | crates/prehnitedb/src/engine/batch.rs:194-242 | appends the value coerced to the column type and keeps the rest, or errs exactly when it does not coerce |
| ColumnBatches.BatchBuilder.PushRow | crates/prehnitedb/src/engine/batch.rs:78-95 | the batch gains the row, coerced column by column; it errs exactly on a wrong width or a value that fits no column |
| Columnar.GatherColumn | crates/prehnitedb/src/engine/executor.rs:7134-7190 | the gathered column holds the values at the selected physical rows |
| Columnar.UnaryColumnar | crates/prehnitedb/src/engine/executor.rs:6825-6861 | a column exactly when the operand type fits and the row operator errs on no row, and then pointwise its values |
| Columnar.ArithmeticInt | crates/prehnitedb/src/engine/executor.rs:6888-6931 | pointwise checked integer arithmetic with NULL propagation; an error exactly when the row operator errs on some row |
| Columnar.ArithmeticReal | crates/prehnitedb/src/engine/executor.rs:6933-6967 | pointwise mixed numeric arithmetic; an error exactly when the row operator errs on some row |
| Columnar.CompareColumnar | crates/prehnitedb/src/engine/executor.rs:6977-7000 | pointwise comparison; an error exactly when the row comparison errs on some row |
| Columnar.LogicColumnar | crates/prehnitedb/src/engine/executor.rs:7002-7050 | pointwise three-valued AND and OR; an error exactly when an operand is not a boolean column |
| Columnar.InListColumnar | crates/prehnitedb/src/engine/executor.rs:7070-7100 | pointwise three-valued IN; an error exactly when the row form errs on some row |
| Columnar.UnaryTypeMeaning | crates/prehnitedb/src/engine/executor.rs:6825-6861 | a unary column type is missing exactly where the row operator errs on every value of the type |
| Columnar.BinaryTypeMeaning | crates/prehnitedb/src/engine/executor.rs:6863-6886 | an arithmetic or logical column type is missing exactly where the row operator errs on all values of the two types, and results have the type |
| Columnar.EvalBatch | crates/prehnitedb/src/engine/executor.rs:6724-6781 | for every expression, batch and selection vector a column comes back if and only if the column types fit the expression and the row evaluator errs on no logical row; its value at every row is then the row evaluator's |
| Columnar.NullOperandDiverges | crates/prehnitedb/src/engine/executor.rs:6872-6886 | NULL + 1 and -NULL are NULL row by row and have no column type, so the batch form errs |
| Columnar.NonBooleanFilterDiverges | crates/prehnitedb/src/engine/executor.rs:7110-7119 | a non-boolean WHERE value keeps no row row by row and is an error in the batch form |
| BatchOperators.BuildSelection | crates/prehnitedb/src/engine/executor.rs:7110-7127 | an error exactly when the mask is not boolean; otherwise the selection points at exactly the rows the row filter keeps, in order |
| RowOperators.FilterRowsMeaning | crates/prehnitedb/src/engine/executor.rs:4493-4510 | the row filter keeps, in order, exactly the rows on which the predicate is TRUE, and fails exactly when it errs on some row |
| BatchOperators.BatchFilter.NextBatch | crates/prehnitedb/src/engine/executor.rs:5846-5868 | the batch holds exactly the rows the row filter keeps of the batches used, and is never empty; it fails on the first batch where the predicate is not a boolean column or errs on a row, and only there |
| BatchOperators.FilterAll | crates/prehnitedb/src/engine/executor.rs:5846-5868 | driven to its end the batched filter raises no error if and only if the predicate is a boolean column in every batch and the row filter raises none, and it then keeps the row filter's sequence |
| BatchOperators.ProjectBatch | crates/prehnitedb/src/engine/executor.rs:5878-5911 | an error exactly when some item does not evaluate on the batch; otherwise every output row is the row projection of the input row in its place |
| BatchOperators.SliceRows | crates/prehnitedb/src/engine/executor.rs:5969-5994 | the slice holds the logical rows of the range, sharing the columns |
| BatchOperators.BatchLimit.NextBatch | crates/prehnitedb/src/engine/executor.rs:5922-5963 | each batch is the next part of the rows OFFSET and LIMIT leave, and the end comes only when none remain |
| ScopeChange.SameColumnsSameValue | crates/prehnitedb/src/engine/executor.rs:4512-4540 | contexts that agree on an expression's columns agree on the expression |
| Subqueries.SubstituteIsJoin | crates/prehnitedb/src/engine/executor.rs:4933-4967 | evaluating a filter with outer references replaced by literals, on an inner row, is evaluating it on the joined row |
| Subqueries.UncorrelatedIsConstant | crates/prehnitedb/src/engine/executor.rs:4974-4998 | a filter with no outer reference is unchanged by substitution, so running it once up front is running it per row |
| Subqueries.KeepsByConjuncts | crates/prehnitedb/src/engine/planner.rs:719-764 | a WHERE clause with subqueries keeps a row iff each of its conjuncts does |
| SubqueryRewrite.RewriteSubqueryJoins | crates/prehnitedb/src/engine/planner.rs:719-745 | the loop extracts, in order, the conjuncts the two extractors accept, tracking the qualifiers in use, and leaves the rest |
| SubqueryRewrite.ExistsRewriteIff | crates/prehnitedb/src/engine/planner.rs:785-850 | the semi- or anti-join keeps the row that evaluation keeps if and only if the subquery does not aggregate or some inner row matches |
| SubqueryRewrite.AggregateExistsDiffers | crates/prehnitedb/src/engine/planner.rs:802-814 | EXISTS over a COUNT on an empty table is TRUE, and its semi-join drops the row |
| SubqueryRewrite.InListMeaning | crates/prehnitedb/src/engine/executor.rs:5126-5142 | IN over the collected list is three-valued membership; what the list and its NULL mark hold is pinned by `SubqueryMeaning.InValue` |
| SubqueryMeaning.MatchedRowsMeaning | crates/prehnitedb/src/engine/executor.rs:4742-4931 | a plain subquery's rows for an outer row are the table's rows its filter accepts beside it, in order, all of them without a filter; it fails exactly when the filter errs on some row |
| SubqueryMeaning.InValue | crates/prehnitedb/src/engine/executor.rs:5004-5142 | `p IN sub` is NULL for a NULL p, TRUE when some matched row's column equals p, else NULL when some is NULL, else FALSE; NOT IN turns TRUE and FALSE round |
| SubqueryMeaning.InKeepsIff | crates/prehnitedb/src/engine/executor.rs:5004-5142 | IN keeps the row iff p is not NULL and some matched row's column equals it; NOT IN iff p is not NULL and no matched row's column equals it or is NULL |
| SubqueryMeaning.NullInListDropsRow | crates/prehnitedb/src/engine/executor.rs:5004-5142 | 1 NOT IN (2, NULL) does not keep the row |
| SubqueryMeaning.ExistsKeepsIff | crates/prehnitedb/src/engine/executor.rs:5029-5045 | EXISTS keeps the row iff the subquery aggregates or some row matches, NOT EXISTS iff neither |
| SubqueryMeaning.ValueByParts | crates/prehnitedb/src/engine/executor.rs:4742-4931 | around subqueries an expression has the value its operator gives its parts |
| SubqueryMeaning.NothingToResolve | crates/prehnitedb/src/engine/executor.rs:4742-4931 | an expression without subqueries is left alone |
| SubqueryRewrite.InRewriteIff | crates/prehnitedb/src/engine/planner.rs:868-994 | IN always agrees with its semi-join; NOT IN agrees with its anti-join if and only if the outer value is not NULL |
| SubqueryRewrite.NullNotInDiffers | crates/prehnitedb/src/engine/planner.rs:926-934 | NULL NOT IN an empty list is NULL to evaluation, and the anti-join keeps the row |
| SubqueryRewrite.RewriteKeepsRows | crates/prehnitedb/src/engine/planner.rs:719-745 | under those conditions the joins and the leftover filter keep exactly the outer rows, in order and with multiplicity, that per-row evaluation of the WHERE clause keeps |
| SlottedPage.RegionsDisjoint | crates/prehnitedb/src/storage/page.rs:234-262 | the slot array ends before the cells begin, and no two cells overlap, for any entries that fit |
| SlottedPage.BuildLeaf | crates/prehnitedb/src/storage/page.rs:234-262 | succeeds exactly when slots and cells fit, and then every slot, cell and header field is in place |
| SlottedPage.BuildInternal | crates/prehnitedb/src/storage/page.rs:265-290 | the same for interior pages |
| PageSearch.LeafReadsBack | crates/prehnitedb/src/storage/page.rs:156-175 | a built leaf's key and value readers return the entries |
| PageSearch.InternalReadsBack | crates/prehnitedb/src/storage/page.rs:177-186 | an interior page's key and child readers return the entries |
| PageSearch.CountReadsBack | crates/prehnitedb/src/storage/page.rs:143-150 | the cell count and the right link read back |
| PageSearch.HeaderLayout | crates/prehnitedb/src/storage/page.rs:234-290 | type in byte 0, cell count in bytes 2 and 3, start of the cells in bytes 4 and 5, right link in bytes 8 to 11 |
| PageSearch.LeafRoundTrip | crates/prehnitedb/src/storage/page.rs:219-262 | building and reading gives back the same entries, or the capacity error exactly when they do not fit |
| PageSearch.FindLeafSlot | crates/prehnitedb/src/storage/page.rs:190-201 | over strictly sorted keys: the slot if and only if the key is present, else its insertion point |
| PageSearch.FindChild | crates/prehnitedb/src/storage/page.rs:205-216 | the last separator at or below the key, or 0 |
| ParallelScan.ChooseCuts | crates/prehnitedb/src/engine/executor.rs:2157-2178 | the boundaries are exactly the first keys of the non-empty leaves that start a worker's chunk, in strictly ascending order, fewer than the workers |
| ParallelScan.SlicesCover | crates/prehnitedb/src/engine/executor.rs:2163-2196 | whatever the ascending cuts, the ranges cover every key exactly once, in key order |
| ParallelScan.SentMeaning | crates/prehnitedb/src/engine/executor.rs:2217-2252 | for each key a worker sends the selected columns of the visible row on which the filter is TRUE, or nothing where there is none |
| ParallelScan.SentIsSerial | crates/prehnitedb/src/engine/executor.rs:2217-2252 | the serial scan fails if and only if the filter errs on a visible row; otherwise what workers send over any keys is the serial sequence |
| ParallelScan.SerialLimitedMeaning | crates/prehnitedb/src/engine/executor.rs:2509-2536 | the serial scan under the Limit operator succeeds if and only if no error is reached before OFFSET plus LIMIT rows are kept, and then yields what OFFSET and LIMIT leave |
| ParallelScan.ReceivedInKeyOrder | crates/prehnitedb/src/engine/executor.rs:128-165 | in every interleaving of workers and receiver, for any ascending cuts, the received rows are a prefix of what OFFSET and LIMIT leave of the rows sent in key order, and all of it once the receiver is drained |
| ParallelScan.ParallelEqualsSerial | crates/prehnitedb/src/engine/executor.rs:128-165 | a drained run has the result of the limited serial scan if and only if the filter errs on no visible row the serial scan reads before OFFSET plus LIMIT rows are kept |
| ParallelScan.ParallelDropsErrors | crates/prehnitedb/src/engine/executor.rs:2234-2243 | for any table with such a row, some run drains, reports no error and yields the rows without it, and the serial scan fails |
| ParallelScan.DivisionByZeroDropped | crates/prehnitedb/src/engine/executor.rs:2234-2243 | WHERE 1 / 0 over any table with a visible row: the parallel scan ends with no row and no error, the serial scan fails |

## Left out

- Pager, write-ahead log, buffer pool and B+tree internals: their files are not part of this model; trees are ordered maps and each row write is atomic at page level.
- SQL parser, EXPLAIN text, selectivity estimates, statistics, prepared-statement cache, BEGIN/COMMIT handle state, VACUUM, foreign-key actions, wire protocol, CLI and server threads: shallow or dependent on files that are not part of this model; only the server's lock discipline is used.
- Schema blob codec and bind substitution: round trips easier than the ones proved here.
- Aggregation, GROUP BY, HAVING and scalar subqueries: not modelled beyond the fact that an aggregate without GROUP BY returns one row.
- Floating-point arithmetic results: left open; only bit order and equality matter to what is proved.
- Bytes of a failed flush that were written and never synced, and are lost by the crash itself: a crash keeps what the file holds; a torn record followed by later appends is covered by `CommitLog.TornAppendIsCorrupt`, and the recovery theorems ask that nothing was written behind a torn record.
- The temporary file of truncation and directory syncs: the rename is one step from one complete image to another, with failures before and after it; a log left without a handle because reopening failed twice is not modelled.
- Waiting on condition variables, wake-ups and fairness: a waiting thread is one whose step is not enabled; no liveness is claimed.
- Full serialisability: not claimed; the flags are proved exact with respect to recorded dependencies, and `SkewAfterCommitPasses` shows a skew that escapes.
- Statement rollback after an error part-way through an indexed write: each row's table write and index writes are separate steps, but a failing statement is taken to have no effect.
- Row counts and auto-analyse counters kept by reclaim and writes: bookkeeping with no correctness claim.
- Spill files of the grace join are lists of encoded rows; their length framing is the one proved for sort runs.
- Errors raised while assembling output batches from rows that do not fit the declared column types: rows are taken to fit their types.
- Projection errors inside EXISTS: only existence is modelled.
- IndexScans.IndexScanEqualsFullScan: compares the rows kept, not the point at which an evaluation error would surface.
- JoinReorderSafety.ReorderKeepsRows: assumes neither chain raises an error, because reordering changes on which partial rows a predicate is evaluated; `ReorderKeepsMeaning` replaces the assumption by one on the predicates alone.
- ColumnBatches.PushBit: null masks and columns are values here, and only the batch under construction is an object, so sharing and growing buffers in place are not captured.
- ExternalSort.BatchSort.PopHeap: the binary heap is a map from run to its entry; only which entry leaves next is modelled.
- JoinOrder.ScoreOrdering: table bitmasks are sets; with at most eight tables no bit is lost.
- ParallelScan.ParallelEqualsSerial: workers that fail to open a pager or read a page are not modelled; channel capacity only removes interleavings.
- JoinOperators.HashJoin.Next: INNER, LEFT and CROSS only, and likewise the grace, index and batched joins; the planner routes semi- and anti-joins to the nested loop (crates/prehnitedb/src/engine/executor.rs:981-998, 5383-5389).
- JoinOperators.IndexNestedLoopJoin.Next: assumes an index with no dangling key, which `OnlineIndex.EveryIndexIsSound` gives; `Lookup` alone covers corrupt entries.
- JoinOperators.GraceHashJoin.Next: rows whose encoding reaches 2^32 bytes are excluded, since the length prefix of a spilled row is 32 bits wide.
- ExternalSort.BatchSort.DrainInput: the same exclusion for sort runs that spill, and their rows are taken to have the declared column types, as the comparator is a total order only within one type.
- ExternalSort.SortAll: as `DrainInput`; an input below the spill threshold has no such restriction.
- TransactionSafety.AffectedOnlyByRolledBackDelete: a crash, which forgets who was in flight, starts a new run for which the more general `SurvivorAffectedIff` applies.
