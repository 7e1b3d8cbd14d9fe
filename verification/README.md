# Verified models of xarray-sql

xarray-sql presents N-dimensional labelled grids to SQL engines as tables, and turns query results
back into grids. Most of its code exists so that an engine reads as little as possible: chunks are
pruned by coordinate ranges, counted without being read, merged, prefetched and cached. Each of
these fast paths claims to agree with a simple one. This project models them and proves the claims.

The modules, from the bottom up:

- `Wrappers`, `Grid`, `NdArrays`, `ChunkGrids`: row-major index arithmetic, products of choices,
  arrays as a shape and flat data, axes cut into chunks.
- `Lru`, `QueryRuns`, `ChunkCache`, `CachedVariable`, `SourceStore`, `SelectionPrograms`: the
  fault-and-retry chunk cache. A query is an adaptive program that reads chunks; a run of the retry
  loop is a trace of rounds; loads complete in any order. `ChunkCache` is the class, proved against
  those traces; `SourceStore` is the store a source makes.
- `CoordTables`, `DimShadow`, `StrictPartition`, `BlockScan`, `PushdownDataset`, `NullCounts`,
  `FilterExpr`, `Coalesce`, `Prefetch`: pruning, counting, merging and scheduling over a chunked table.
  Arrow's guarantee simplifier is an oracle that may raise and must be sound; `FilterExpr` gives one
  that is.
- `Scalars`, `Casts`, `Pruning`, `ScanStatistics`: the pruning interpreter and the exact statistics of
  the native library, over typed scalars and three-valued filters whose casts may fail. What the
  model takes an engine to do is stated by `ThreeValued`, `LeftDecides`, `AttemptIsNull`,
  `TestsMeaning` and `DurationConverts` of `Pruning`.
- `DatasetBlocks`, `Pivot`, `PartitionPairs`: chunk arithmetic, the forward pivot and its batches, and
  the metadata registered with each partition, which is shown to be what pruning and statistics need.
- `CoordLookups`, `Scatter`, `ResultDataset`, `EngineRows`, `LazyWindows`, `Discovery`: the reverse
  pivot and lazy window reads. `EngineRows` keeps NULL cells of the engine apart from what NumPy
  shows for them.
- `Regrid`: regridding as a sparse join.
- `StagedReplace`: replacing a table through a staging table when any statement may fail.

Findings: claims that need a condition, each with an input on which it fails.

- `count_rows` adds the rows of a proven chunk on which the filter is NULL
  (`PushdownDataset.PushdownDataset.CountRows` says by exactly how much). The count is exact if and
  only if the filter is not NULL on any proven row. With a simplifier at least as sharp as the
  interval evaluator of `FilterExpr`, `x > 0 OR NULL` over the rows -1 and 1 in one chunk is counted
  twice (`NullCounts.NullOvercount`, `NullCounts.CountTwoRows`).
- A lazy read loses the rows that are NULL on a dimension the index cuts: the window compares with
  the NULL, which is never TRUE, while the dense array has the row (`LazyWindows.MarkerLost`). The
  read equals indexing the whole array if and only if no row of the region is such a row
  (`LazyWindows.RawGetItem`), in particular when no window asks for a missing value.
- Coordinates discovered from a stream repeat the missing marker on a dimension that has both NULL
  and NaN cells (`Discovery.MarkersMix`), and on no other.
- Pruning compares zeros as numbers. For an engine that orders -0.0 before 0.0, an excluded range
  holds a value that satisfies the comparison exactly when the literal and the end of the range it is
  compared with are zeros in the way `Pruning.ZeroHazard` says (`Pruning.ZeroHazardExactly`,
  `Pruning.LostZero`).
- Pruning never loses another row, but it can hide a failed cast: the overflow test looks at interval
  literals only, and a duration may be cast to an interval and back (`Pruning.HiddenOverflow`).
  `Pruning.HiddenFailureExactly` says on exactly which rows.
- The reported row count is flagged exact though its sum saturates: two partitions of 2^63 rows are
  2^64 - 1 (`ScanStatistics.SaturatedCount`). It is the true one if and only if that fits 64 bits
  (`ScanStatistics.RowCountExact`).

To verify the project: `dafny verify dfyconfig.toml`.

## Model

| member | source | states |
|---|---|---|
| Lru.FilledKeeps | docs/demo/chunk_cache.py:171-181 | however the loads of a round complete, touched chunks stay the recent suffix of the LRU order, and none is evicted unless the touched ones alone exceed the budget |
| QueryRuns.WorkingSetInvariant | docs/demo/chunk_cache.py:162-238 | after any number of retries from any starting cache and in any completion orders, touched chunks are the recent suffix and everything fetched is still cached unless the touched chunks exceed the budget |
| QueryRuns.WorkingSet | docs/demo/chunk_cache.py:208-231 | when the loop raises its memory error, the bytes of all chunks touched over all rounds exceed the budget |
| QueryRuns.HitsAreSource | docs/demo/chunk_cache.py:162-169 | a run without a miss reads what the run on the source reads and ends as it does, whatever the query |
| QueryRuns.Exactness | docs/demo/chunk_cache.py:208-223 | the round that ends a query gives the outcome on the source, with everything it reads cached at once and within the budget |
| QueryRuns.RetriesBounded | docs/demo/chunk_cache.py:202-205 | every retry fetches chunks never fetched before, so there are at most as many as the source has chunks |
| ChunkCache.ChunkCache.Get | docs/demo/chunk_cache.py:162-169 | a hit moves to the recent end and returns the chunk; a miss is recorded and returns fill values |
| ChunkCache.ChunkCache.Fetch | docs/demo/chunk_cache.py:171-181 | one load is appended and the oldest chunks are evicted while over budget, never the last one; the byte count stays the sum of the cached sizes |
| ChunkCache.ChunkCache.Fill | docs/demo/chunk_cache.py:190-195 | everything recorded as missing is loaded once, in any order, and the record is emptied |
| ChunkCache.ChunkCache.BytesOf | docs/demo/chunk_cache.py:183-188 | the declared bytes of a set of keys, each counted once |
| ChunkCache.ChunkCache.Pass | docs/demo/chunk_cache.py:209-238 | one pass of the loop ends the query as `Concluded` says, or leaves the cache in the state of a retried round |
| ChunkCache.ChunkCache.Query | docs/demo/chunk_cache.py:197-238 | for every adaptive query and starting cache: the loop ends, a result or exception is the source's own, a memory error means the touched chunks and so the whole source exceed the budget, and the statistics count the rounds |
| ChunkCache.StatsCount | docs/demo/chunk_cache.py:106-112 | the statistics have one entry per round and count each fetched chunk once |
| ChunkCache.StatsEntries | docs/demo/chunk_cache.py:218 | the entry of each round is the number of chunks that round missed |
| CachedVariable.StepsCover | docs/demo/chunk_cache.py:81-83 | a slice selects every step-th position from its clamped start to its clamped stop and no other |
| CachedVariable.SelectedIsIndexing | docs/demo/chunk_cache.py:77-102 | from the key and the array alone: integer axes are dropped and no other, a slice axis has one element for each `min(start, n) + u * step` below `min(stop, n)`, and the element at `u` is the one of the source at those positions |
| CachedVariable.AssemblyIsSelection | docs/demo/chunk_cache.py:74-102 | assembling the real chunks a basic selection overlaps gives that selection of the source array, which is basic indexing as the row above spells it out |
| CachedVariable.CopyChunk | docs/demo/chunk_cache.py:95-100 | copying one overlapped chunk writes exactly the buffer cells whose home it is, from the right offsets |
| CachedVariable.RawGetItem | docs/demo/chunk_cache.py:74-102 | the buffer is assembled from the chunks read in product order, each read touching or faulting the cache |
| SelectionPrograms.CompiledTerminates | docs/demo/chunk_cache.py:74-102 | a query that makes finitely many selections makes finitely many chunk reads |
| SourceStore.SelectionReadsChunks | docs/demo/chunk_cache.py:85-94 | whatever part of a variable a selection overlaps, the keys it reads are chunks of the grid of the whole variable |
| SourceStore.KeysDistinct | docs/demo/chunk_cache.py:85-94 | no selection reads a chunk twice |
| SourceStore.StoreServes | docs/demo/chunk_cache.py:162-188 | the store with one chunk per grid cell of every variable has every chunk any selection reads, with the values of the source and fill values of its shape |
| SelectionPrograms.StoreBounds | docs/demo/chunk_cache.py:85-94 | no selection overlaps more chunks than that store has |
| SelectionPrograms.CompiledRunsAlike | docs/demo/chunk_cache.py:144-160 | run chunk by chunk on real chunks, a query of selections ends as it does on the source arrays |
| SelectionPrograms.QueryDataset | docs/demo/chunk_cache.py:144-238 | for every source, chunking and adaptive query over the cached dataset, an answer is the one over the source arrays, and there is one whenever the whole source fits the budget; fill values never leak |
| SelectionPrograms.QueryTwice | docs/demo/chunk_cache.py:128-160 | the same from the source alone, for two queries through one new cache |
| DimShadow.KeptSound | xarray_sql/backends/pyarrow.py:192-225 | on the single-level, coarse-only and refined paths, with NaN spans, kept indices are increasing and in range and no chunk that holds a matching row is dropped |
| DimShadow.KeptExactly | xarray_sql/backends/pyarrow.py:192-225 | an answer lists exactly the chunks whose bucket may match and, where at most a quarter of the buckets of a two-level axis may, that may match themselves |
| DimShadow.KeptNothingPruned | xarray_sql/backends/pyarrow.py:192-225 | "every chunk" is answered exactly when the simplifier raises about a bucket or a consulted chunk, or nothing is refined and every bucket may match |
| DimShadow.DimShadow.Keep | xarray_sql/backends/pyarrow.py:192-225 | whatever fine levels earlier queries left cached, the answer is the uncached one |
| DimShadow.DimShadow.RefineKept | xarray_sql/backends/pyarrow.py:206-225 | the fine pass over the kept buckets, stopping with "every chunk" when a fine level raises |
| StrictPartition.ShrunkLevel | xarray_sql/backends/pyarrow.py:855-860 | a level builds at most 4096 fragments, is not cut when it already fits, and keeps at least a third of the budget when it is |
| StrictPartition.RecursionShrinks | xarray_sql/backends/pyarrow.py:898-905 | every cell classified again has strictly fewer chunk combinations than the one it came from |
| StrictPartition.CellGuaranteeExact | xarray_sql/backends/pyarrow.py:816-876 | a bucket product has a guarantee exactly when some dimension is numeric and none of those has a NaN in it |
| StrictPartition.BucketEnds | xarray_sql/backends/pyarrow.py:826-832 | the ends of a guarantee are coordinates of the bucket, so that it is no wider than its values |
| StrictPartition.ClassifyAccounts | xarray_sql/backends/pyarrow.py:784-915 | every row of a cell on which the filter is true ends in the proven rows or in exactly one boundary block, and no proven row is false, for any depth and bucketing |
| StrictPartition.PassesDecide | xarray_sql/backends/pyarrow.py:880-897 | deciding the products one by one is two passes over the fragments of a level: a product is pruned when the pass of the filter leaves its fragment out, proven when only that of the negation does, and undecided otherwise |
| StrictPartition.PassesRaise | xarray_sql/backends/pyarrow.py:880-891 | the passes raise exactly when the simplifier raises on a product that has a fragment |
| StrictPartition.DepthBackstop | xarray_sql/backends/pyarrow.py:898-909 | an undecided product at depth six is one block for each of its chunk combinations |
| StrictPartition.CellBlocksCover | xarray_sql/backends/pyarrow.py:947-969 | the blocks of the chunk combinations cover the rows of a cell, each once |
| CoordTables.RowCountIsSize | xarray_sql/backends/pyarrow.py:834-840 | the product of per-dimension lengths and outer rows is the number of rows in a cell |
| BlockScan.ScanBlocks | xarray_sql/backends/pyarrow.py:627-631 | scanning disjoint blocks counts the rows on which the filter is true, each once |
| PushdownDataset.PruneSound | xarray_sql/backends/pyarrow.py:743-761 | every row on which the filter is true lies in the surviving cell |
| PushdownDataset.PushdownDataset.DimShadows | xarray_sql/backends/pyarrow.py:716-741 | the indexes are built on first use, one for every numeric dimension whose index can be built, and then kept |
| PushdownDataset.PushdownDataset.Survivors | xarray_sql/backends/pyarrow.py:743-761 | the surviving chunks of every dimension, every chunk where there is no index, independent of the state of the lazily built indexes |
| PushdownDataset.PushdownDataset.Partition | xarray_sql/backends/pyarrow.py:784-915 | the loops over nonlocal counters give the proven row count and the boundary blocks of the classification, and fall back to scanning when the simplifier raises |
| PushdownDataset.PushdownDataset.CountRows | xarray_sql/backends/pyarrow.py:611-631 | for every table, grid and filter, and whatever earlier queries built: the count is the number of true rows plus the NULL rows among the proven ones; it is exact if and only if there are none, in particular for filters never NULL where every guarantee is complete |
| PushdownDataset.CoveredFiltersCountExactly | xarray_sql/backends/pyarrow.py:893-897 | a filter that is never NULL on rows covered by a complete guarantee has no NULL proven row |
| PushdownDataset.ProvenNotFalse | xarray_sql/backends/pyarrow.py:893-897 | every proven row is covered by a complete guarantee and the filter is false on none |
| PushdownDataset.PushdownDataset.CountAll | xarray_sql/backends/pyarrow.py:625-626 | without a filter the count is the number of rows of the table |
| NullCounts.NullOvercount | xarray_sql/backends/pyarrow.py:893-897 | for `x > 0 OR NULL` over the rows -1 and 1 in one chunk and a sound simplifier, one row is true and both are proven |
| NullCounts.CountTwoRows | xarray_sql/backends/pyarrow.py:611-631 | a dataset of those rows counts two |
| FilterExpr.SimplifierIsSound | xarray_sql/backends/pyarrow.py:185-190 | an interval evaluator of AND, OR, NOT, comparisons and IN under three-valued logic meets what pruning and strictness ask of the simplifier, for the filter and for its negation |
| FilterExpr.TestSharp | xarray_sql/backends/pyarrow.py:185-190 | on a comparison or a list alone it allows exactly the truth values that some coordinate of the interval gives |
| FilterExpr.CountFilter | xarray_sql/backends/pyarrow.py:611-631 | a filter without NULL literals is counted exactly with this simplifier, for any chunking, coordinates and data, NaN and NULL included |
| FilterExpr.NullIsUndecided | xarray_sql/backends/pyarrow.py:893-897 | wherever a filter without NULL literals may be NULL it may also be true and false, so its rows are scanned and not proven |
| FilterExpr.CountTwice | xarray_sql/backends/pyarrow.py:611-631 | from the table alone, two counts over one new dataset are both exact |
| Coalesce.Runs | xarray_sql/backends/pyarrow.py:1009-1021 | the greedy loop splits surviving chunks, in order, into runs of consecutive chunks within the row limit, or of one chunk, and stops a run only where it must |
| Coalesce.FlushSize | xarray_sql/backends/pyarrow.py:992-1008 | a merged block has the rows of its run |
| Coalesce.CoalescedBlocks | xarray_sql/backends/pyarrow.py:971-1021 | merged blocks cover exactly the rows the single-chunk blocks cover, each once, for any surviving index lists, and every one is such a run |
| Prefetch.Scan.Submit | xarray_sql/backends/pyarrow.py:564-568 | a load joins the back of the window and its estimate the bytes in flight |
| Prefetch.Scan.DrainOne | xarray_sql/backends/pyarrow.py:570-574 | the oldest load leaves the window and its batches are handed over until the consumer has enough |
| Prefetch.Scan.Admit | xarray_sql/backends/pyarrow.py:581-585 | the oldest loads are drained one by one up to the first window that is a single load, or within both the prefetch and the byte budget |
| Prefetch.Scan.Generate | xarray_sql/backends/pyarrow.py:544-593 | the output is the concatenation of the loads in block order up to what the consumer takes, each block loaded once; bytes in flight are the sum of pending estimates and never more than max(prefetch, 3) loads are pending |
| Scalars.CompareIntegersExact | src/lib.rs:180-199 | integers of either sign and any width compare as the integers they are |
| Scalars.OrderMeaning | src/lib.rs:116-172 | the order of values is that of what they are: integers, reals with the infinities at the ends, times, false before true, byte strings by the first difference, intervals field by field; other pairs and NaN have none |
| Scalars.FloatsCompare | src/lib.rs:120-122 | float bounds and scalars of any widths compare as the reals they are, the negative zero as zero |
| Scalars.CompareToScalarExact | src/lib.rs:116-150 | a comparison of a bound with a scalar is the order of what they denote, across widths, signs, temporal units and month-free intervals |
| Scalars.CompareToScalarTotal | src/lib.rs:116-150 | outside intervals there is an answer exactly for comparable values of one kind |
| Scalars.CompareToBoundExact | src/lib.rs:152-172 | bounds compare as the values they denote, whatever their variants |
| Scalars.TemporalNanos | src/lib.rs:247-255 | ticks of any unit scale to nanoseconds within 128 bits, and back |
| Scalars.ThousandTicks | src/lib.rs:247-255 | a tick of each unit compares as a thousand ticks of the next finer one, for timestamps and durations |
| Scalars.NanosecondTicks | src/lib.rs:247-255 | a tick of the finest unit is one nanosecond, and a duration of `n` of them is the interval of `n` nanoseconds |
| Casts.WideningRepresents | src/lib.rs:741-745 | a wider float holds every value of a narrower one |
| Casts.CastStep | src/lib.rs:652-670 | one more accepted cast keeps the value even where it narrows the expression under it |
| Casts.CastOverflows | src/lib.rs:752-768 | the one accepted cast that can fail is a duration beyond 64-bit nanoseconds |
| Casts.OrderPreservingExactly | src/lib.rs:721-750 | a cast is accepted exactly when the types are equal, the range of one integer type lies in that of the other, a float does not narrow, or a duration becomes a month-day-nano interval |
| Pruning.CastsKeepValues | src/lib.rs:652-670 | every accepted nest of casts shows each value of the column unchanged, unless a duration overflows |
| Pruning.NestsLookedThrough | src/lib.rs:652-670 | the expressions looked through are exactly the nests over a dimension column in which every cast preserves the order of that column |
| Pruning.CompareMonotone | src/lib.rs:116-150 | how a bound compares with a scalar carries over to every value on its side of the bound |
| Pruning.RangeExcludesSound | src/lib.rs:475-530 | excluding a range is right for every value in it, for every operator, on either side of the literal and through any accepted casts; the one exception is a zero against a zero of the other sign, for engines that separate them, which is TRUE |
| Pruning.RangeExcludesExact | src/lib.rs:475-530 | where both ends compare with the literal, a range is excluded if and only if no value in it satisfies the operator |
| Pruning.ZeroHazardExactly | src/lib.rs:121-123 | an excluded range holds a value that satisfies the comparison on such an engine if and only if the literal and the compared end of the range are zeros |
| Pruning.LostZero | src/lib.rs:494-497 | a column of -0.0 is excluded for `x < 0.0`, which such an engine calls TRUE |
| Pruning.RestsOnZeroLiteral | src/lib.rs:494-497 | an exclusion rests on such a zero only if the filter has a zero among its literals |
| Pruning.ComparisonSound | src/lib.rs:445-531 | an excluded comparison is true on no row but those of that exception, and against an interval literal it is FALSE on every row, so that no failed cast is hidden |
| Pruning.BetweenSound | src/lib.rs:534-577 | an excluded BETWEEN is true on no row of the partition |
| Pruning.InListSound | src/lib.rs:580-623 | an excluded IN list is true on no row of the partition |
| Pruning.BooleanSound | src/lib.rs:673-698 | a boolean column whose range excludes a truth value never has it |
| Pruning.BooleanExact | src/lib.rs:673-698 | a boolean test is excluded exactly when no value of the range has the truth value it asks for |
| Pruning.BetweenExact | src/lib.rs:534-577 | a BETWEEN is excluded exactly when the range lies on one side of it, which for ends in order is when no value of the range is in it |
| Pruning.InListExact | src/lib.rs:580-623 | an IN list of comparable literals is excluded exactly when no value of the range is on it |
| Pruning.IntervalExact | src/lib.rs:755-768 | a range of durations is compared with an interval exactly when that has no months and both ends fit 64-bit nanoseconds, and is then excluded exactly when no duration in it satisfies the operator |
| Pruning.ExcludedExactly | src/lib.rs:398-442 | a filter tree over comparable tests is excluded exactly when the values of the ranges rule it out test by test |
| Pruning.ExclusionSound | src/lib.rs:398-442 | for every filter tree and every partition whose values lie in the recorded ranges, exclusion means that no row makes the filter TRUE, on engines with one zero always, and on the others unless the exclusion rests on such a zero |
| Pruning.PrunedScanComplete | src/lib.rs:382-394 | scanning only the surviving partitions and filtering again gives the rows of the full scan with the same filter, in order, under the same proviso for zeros |
| Pruning.CastFailsExactly | src/lib.rs:652-670 | an accepted nest of casts fails on a row if and only if an overflowing duration becomes an interval in it |
| Pruning.HiddenOverflow | src/lib.rs:752-768 | a partition is pruned although its only row fails to evaluate the filter |
| Pruning.HiddenFailureExactly | src/lib.rs:752-768 | against a literal other than an interval, an excluded comparison is FALSE on every row except exactly those whose cast fails and those of the zero exception |
| ScanStatistics.SumRowCounts | src/lib.rs:1005-1007 | the fold is the true total or the largest count |
| ScanStatistics.FoldBound | src/lib.rs:1012-1020 | the kept bound is one of the two, and neither lies below the kept minimum or above the kept maximum |
| ScanStatistics.TemporalBoundInUnit | src/lib.rs:1084-1095 | a conversion to a unit exists exactly when no nanosecond is lost and 64 bits suffice |
| ScanStatistics.BoundToScalarLossless | src/lib.rs:1027-1082 | a converted bound has the column's type and the same value |
| ScanStatistics.TemporalBoundConverts | src/lib.rs:1027-1082 | a temporal bound converts exactly when the column's type holds its value |
| ScanStatistics.NativeBoundConverts | src/lib.rs:1027-1082 | in a column of its own type a bound is always reported |
| ScanStatistics.TotalByteSize | src/lib.rs:1100-1112 | a size is reported exactly when every column has a fixed width, and is rows times width, or the largest size |
| ScanStatistics.WidthHoldsRange | src/lib.rs:1100-1112 | the width of an integer or temporal type is the number of bytes whose values are its range |
| ScanStatistics.WidthHoldsFloats | src/lib.rs:1100-1112 | the width of a float type has room for its significands and exponents and no more |
| ScanStatistics.FoldColumn | src/lib.rs:1137-1165 | the loop gives the least and greatest bounds of a column exactly when every partition has a range and, with more than one, they compare; a single range is taken as it is |
| ScanStatistics.BuildScanStatistics | src/lib.rs:1127-1185 | row count, byte size and per-column statistics of the surviving partitions, for any metadata |
| ScanStatistics.FoldedAreExtremes | src/lib.rs:1137-1165 | the folded bounds are the extremes of the column over the rows of all surviving partitions |
| ScanStatistics.ColumnStatisticsExact | src/lib.rs:1167-1182 | for nonempty partitions with exact ranges, reported minimum and maximum are the true extremes in the column's type and a zero null count is true |
| ScanStatistics.RowCountExact | src/lib.rs:1005-1007 | the reported row count is the true one if and only if the true one fits |
| ScanStatistics.SaturatedCount | src/lib.rs:1005-1007 | two partitions of 2^63 rows are reported as 2^64 - 1 |
| ScanStatistics.ScanStatisticsExact | src/lib.rs:1127-1185 | for partitions with exact metadata every statistic of every column is true of the rows, and the row count is if it fits |
| DatasetBlocks.ComputeChunks | xarray_sql/df.py:39-63 | chunk tuples sum to the dimension sizes; a requested step gives chunks of that length with a shorter last one |
| DatasetBlocks.BlocksCover | xarray_sql/df.py:140-162 | every cell of the grid is in exactly one block |
| DatasetBlocks.BlockLenIsProduct | xarray_sql/df.py:267-268 | the lengths multiplied in a block's row count are those of its slices |
| DatasetBlocks.RowsConserved | xarray_sql/df.py:140-162 | the block row counts sum to the product of the dimension sizes |
| DatasetBlocks.BlockIsRun | xarray_sql/df.py:104-119 | blocks of nested chunks are contiguous runs of the row-major order |
| DatasetBlocks.StartIsRowsBefore | xarray_sql/df.py:104-119 | and each starts where the blocks before it end |
| DatasetBlocks.DefaultChunks | xarray_sql/df.py:104-119 | the loop from the inside out requests the steps whose shape the next rows describe |
| DatasetBlocks.StepsShape | xarray_sql/df.py:104-119 | default steps multiply to at most 2^20, and outside a cut dimension every step is one |
| DatasetBlocks.DefaultBlocksAreRuns | xarray_sql/df.py:104-162 | default blocks cut the rows of a nonempty grid, in row-major order, into consecutive runs of at most 2^20 rows |
| DatasetBlocks.ResolveDefault | xarray_sql/df.py:66-88 | an unchunked dataset without storage chunks resolves to chunks of the default steps, the blocks of the row above |
| Pivot.RepeatTileAt | xarray_sql/df.py:543-558 | repeating and tiling a coordinate puts at each row the value of its cell |
| Pivot.StridedValue | xarray_sql/df.py:573-578 | `(i // stride) % size` reads the coordinate of row `i` |
| Pivot.FormsAgree | xarray_sql/df.py:366-426 | the repeat/tile, strided and broadcast forms give the same column for every shape and dimension |
| Pivot.DatasetToRecordBatch | xarray_sql/df.py:366-426 | one batch of a partition has the columns that the smaller batches add up to |
| Pivot.IterRecordBatches | xarray_sql/df.py:464-588 | on both paths the batches carry every row once, in C order, all of `batch_size` rows but the last |
| Pivot.CarriedRows | xarray_sql/df.py:541-588 | such batches concatenate to the full columns |
| Pivot.CarriedSizes | xarray_sql/df.py:541-588 | none is empty or above the batch size |
| Pivot.Batched | xarray_sql/reader.py:44-49 | groups hold the items in order, each full but the last |
| Pivot.PartitionArithmetic | xarray_sql/reader.py:299-307 | for all row, chunk and processor counts the two ceiling divisions keep batches within the batch size and cover all rows |
| Pivot.InMemoryPartitions | xarray_sql/reader.py:279-315 | partitions are at most as many as chunks and processors and concatenate to the rows in order; each but the last holds the least number of batches, of the least size, that lets so many partitions hold the rows within the batch size |
| Pivot.EvenShare | xarray_sql/reader.py:299-307 | no partition may hold more than an even share of the rows and one row for each of its batches |
| PartitionPairs.CoordinatePartitionBound | xarray_sql/df.py:702-749 | a bound exists exactly for a nonempty slice of a bounded type without nulls, its ends are values of the slice, and no value lies below the minimum or above the maximum |
| PartitionPairs.RealRange | xarray_sql/df.py:736-740 | every real of a float slice lies between the two reals registered for it |
| PartitionPairs.BoundedTypes | xarray_sql/df.py:702-749 | the bounded types are exactly those a bound variant exists for |
| PartitionPairs.BlockMetadata | xarray_sql/df.py:752-798 | the dictionary has an exact range for each bounded dimension and no other key |
| PartitionPairs.MergeIsFull | xarray_sql/reader.py:432-463 | bounds taken once for uncut dimensions and those of a block make up the metadata of the whole block |
| PartitionPairs.Pairs | xarray_sql/reader.py:446-466 | metadata and row count of every partition, in block order |
| PartitionPairs.RegisteredMetadataExact | xarray_sql/reader.py:446-466 | every partition's ranges are the extremes of its rows and its count their number, which is what scan statistics assume |
| PartitionPairs.PairsConserveRows | xarray_sql/reader.py:446-463 | the registered counts sum to the product of the dimension sizes |
| PartitionPairs.RegisteredStatisticsTrue | xarray_sql/reader.py:446-466 | from a dataset to the planner: the statistics of a scan of its registered partitions are true of the rows they hold, and the row count is the product of the dimension sizes if that fits |
| CoordLookups.AffineRecovers | xarray_sql/ds.py:254-275 | rounding recovers every position of an axis within a quarter step of uniform |
| CoordLookups.LookupHolds | xarray_sql/ds.py:335-354 | whatever the strategy, a value of the axis is resolved to a position that holds it |
| CoordLookups.LookupRecovers | xarray_sql/ds.py:278-354 | on distinct values affine, hash and sorted lookup all give the position |
| CoordLookups.MissingDetected | xarray_sql/ds.py:340-350 | on irregular unique axes exactly the values not on the axis raise |
| Scatter.ScatterBatches | xarray_sql/ds.py:357-408 | every cell gets the last value written to it, unwritten cells stay missing, and a raising lookup ends it |
| Scatter.ScatterIsDense | xarray_sql/ds.py:357-408 | rows on distinct axes end up at the cells their coordinates name |
| ResultDataset.UniqueInOrder | xarray_sql/ds.py:660-671 | coordinates keep the order in which they first appear |
| ResultDataset.COrderGrid | xarray_sql/ds.py:606-630 | the test accepts exactly the results whose rows are the grid, each cell once, in C order |
| ResultDataset.ReshapeIsDense | xarray_sql/ds.py:674-694 | whenever it accepts, reshaping gives what scattering would |
| ResultDataset.DatasetFromBatches | xarray_sql/ds.py:633-707 | the dense array of any result on its own coordinates, for any batching and row order |
| ResultDataset.RoundTrip | xarray_sql/ds.py:633-707 | rows with distinct coordinates come back at the cells they name, and nothing anywhere else |
| LazyWindows.RangeExact | xarray_sql/ds.py:566-603 | over a strictly monotonic axis a run of positions is exactly a value range |
| LazyWindows.WindowExact | xarray_sql/ds.py:524-547 | a window admits exactly the requested values, and its absence means that all are requested |
| LazyWindows.FetchPredicate | xarray_sql/lazyscan.py:130-150 | the predicate is TRUE exactly on the rows whose cells are values inside every window; a NULL cell is inside none |
| LazyWindows.FetchedValue | xarray_sql/ds.py:540-563 | at a requested cell the rows fetched through the windows have the value of all the rows, unless its row is NULL on a windowed dimension, when the cell stays unwritten |
| LazyWindows.SliceSelects | xarray_sql/ds.py:521-525 | a slice selects exactly the positions from its start to its clipped stop that are a multiple of its step away |
| LazyWindows.PositionsFormula | xarray_sql/ds.py:519-537 | the `u`-th element comes from `start + u * step`, from the position itself, or from the `u`-th entry of a list |
| LazyWindows.IndexedIsRead | xarray_sql/ds.py:519-563 | indexing an array gives, with those formulas, the element at the named positions, the length of each axis and the axes dropped |
| Grid.SqueezeKeepsOrder | xarray_sql/ds.py:406-408 | dropping axes of length one moves no element |
| Grid.UndroppedAt | xarray_sql/ds.py:406-408 | what is left of an index or a shape are its entries at the other axes, in order |
| LazyWindows.RawGetItem | xarray_sql/ds.py:503-563 | for any repeat-free index, reading the region equals indexing the array the whole result makes if and only if no row of the region is NULL on a dimension the index cuts, and then each element is the one the formulas above name |
| LazyWindows.NumbersLoseNothing | xarray_sql/ds.py:524-547 | whatever the rows, a read whose windows ask for no missing value loses none |
| LazyWindows.MarkerLost | xarray_sql/lazyscan.py:140-146 | a result with a NULL dimension cell: the whole read is right, the read of that position alone loses its row |
| Discovery.ReadOrDiscover | xarray_sql/ds.py:788-832 | one pass returns the whole result exactly when it fits the budget, and otherwise for each dimension the sorted values its cells convert to, each once unless it has both NULL and NaN cells |
| Discovery.DiscoveredAxesServe | xarray_sql/ds.py:824-832 | axes of discovered coordinates carry every row, and are what lazy reads assume if and only if no dimension has both NULL and NaN cells |
| Discovery.MarkersMix | xarray_sql/ds.py:824-832 | a dimension with both gets its marker twice |
| Regrid.LinearWeights | benchmarks/geospatial/08_regrid_weights.py:72-87 | two triples per target, from the interval it falls in, clipped to the axis |
| Regrid.WeightsConvex | benchmarks/geospatial/08_regrid_weights.py:72-87 | weights lie in [0, 1] exactly for targets within the axis |
| Regrid.WeightedSumIsLerp | benchmarks/geospatial/08_regrid_weights.py:72-87 | with distinct targets the weighted sum at one of them interpolates linearly there |
| Regrid.BilinearWeightTable | benchmarks/geospatial/08_regrid_weights.py:90-121 | the five columns hold the outer product of the two lists of triples |
| Regrid.JoinIsBilinear | benchmarks/geospatial/08_regrid_weights.py:195-203 | the join and the grouped sum give bilinear interpolation of any field at every target |
| Regrid.BilinearExact | benchmarks/geospatial/08_regrid_weights.py:90-121 | fields a + b*x + c*y + d*x*y are reproduced exactly |
| Regrid.WeightsSumToOne | benchmarks/geospatial/08_regrid_weights.py:72-121 | the weight column of every target cell sums to one |
| Regrid.WarpWeightTable | benchmarks/geospatial/09_warp.py:115-156 | four rows per target inside the footprint, none for any other |
| Regrid.FootprintConvex | benchmarks/geospatial/09_warp.py:137-142 | the footprint is exactly where both fractions lie in [0, 1] |
| Regrid.WarpIsBilinear | benchmarks/geospatial/09_warp.py:115-156 | the join interpolates at every target inside the footprint and has no group for any other |
| Regrid.WarpWeightsSumToOne | benchmarks/geospatial/09_warp.py:115-156 | the weight column of a target sums to one inside the footprint and has no row outside it |
| StagedReplace.Connection.ExecuteAll | xarray_sql/backends/adbc.py:128-131 | statements run in order up to the first that fails |
| StagedReplace.Connection.Carry | xarray_sql/backends/adbc.py:83-125 | before, ingest, then after or on_failure, with the states each passes through |
| StagedReplace.Connection.Ingest | xarray_sql/backends/_adbc_dialects.py:226-257 | create asks for a free name and leaves exactly the rows, append asks for the table and adds to it, create-append adds to the table or makes it, replace leaves exactly the rows, and no other table changes but a used staging one; without faults an ingest succeeds if and only if its mode permits it; a replaced table holds the whole old or the whole new rows at every step and failure point |
| StagedReplace.Prepared | xarray_sql/backends/_adbc_dialects.py:251-257 | the statements of each mode without staging run exactly when the mode permits them, and make the table it needs |
| StagedReplace.StagedIsWhole | xarray_sql/backends/_adbc_dialects.py:232-250 | every state that a staged replacement passes through is whole |
| StagedReplace.TemporaryIsNotWhole | xarray_sql/backends/_adbc_dialects.py:251-256 | replacing a temporary table passes through a state without it |

## Left out

- SQL engines, Arrow's simplifier, Zarr and HTTP access, threads and the event loop: parameters, oracles or arbitrary completion orders stand for them.
- Loads that fail while others are in flight: the cache model loads every missing chunk or none.
- Fill values by dtype: `Store.fill` is any function, so exactness holds whatever they are.
- 64-bit overflow in NumPy's products and sums of sizes: counts are unbounded, except the row count and byte size of scan statistics.
- Floating-point rounding: floats are reals, a negative zero, infinities and NaN; `CoordLookups` and `Regrid` compute on reals, without the negative zero.
- Which of the two zeros a folded bound of scan statistics is: its extremes are those of the numbers.
- Time zones: the pruning code ignores the zone of a literal, and the model reads every timestamp as an instant.
- cftime coordinates: their bounds use other units than their column, so `PartitionPairs` covers NumPy types only.
- Filters the pruning code does not look into (LIKE, IS NULL, negated BETWEEN and IN, NOT of other filters): they never exclude and may mean anything.
- Dimensions of a dataset that no chunk grid has are folded into one count of outer rows in `CoordTables`.
- Negative steps and indices in lazy and cached reads: the indexing adapter of xarray normalises them, and lazy indexes name no position twice.
- Undefined integer cells of sparse results: the model marks unwritten cells instead of giving them arbitrary values.
- The byte estimates that send an in-memory dataset to the lazy reader.
- Pivot.IterRecordBatches: a batch size of zero, which raises in the source, is excluded.
- LazyWindows.FetchPredicate: the DuckDB and Polars handles build the same windows with other expression APIs and are not modelled separately.
- Geometry columns, projection, schemas, attributes and dtype restoration, table naming and identifier quoting.
