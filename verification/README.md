# xyzDB: where a fast path must agree with the simple thing it stands for

A Dafny model of the parts of xyzDB in which an optimised path has to give the
answer of a simpler one, with proofs that it does, or of exactly when it does.
`dafny verify dfyconfig.toml` checks the whole project.

The model follows the source's own form: objects whose methods update their
fields are classes, loops are methods with invariants proved against
specification functions, and pure code is functions and lemmas.

## What is modelled

- **Rollups** (`Aggregates`, `Deltas`, `RollupHistory`, `RollupLaws`,
  `RollupStore`, `RollupRuns`, `GroupKeys`): a materialised aggregate is kept as
  an in-RAM state and as a chain of signed deltas folded by the storage engine.
  The two agree over every history and every compaction schedule, exactly on
  clean records.
- **Ghost routing** (`Filters`, `Router`, `GhostReader`, `SeekLiterals`,
  `QueryOrder`, `OrderedReader`, `OrderLiterals`, `Precomputed`,
  `PrecomputedPins`, `SpilledGroups`): replacing a scan by a ghost scan or a
  precomputed answer does not change the answer, ORDER BY and LIMIT included,
  with the exact conditions where the source's readers drop a predicate or a
  record or list rows out of order.
- **Field-dictionary durability** (`FieldDictionary`, `Leb128`, `VectorColumn`,
  `RecordCodec`, `Durability`, `DurableRuns`, `CommitOrder`, `CommitGuard`):
  records store ids, the dictionary travels in the record's batch, crashes lose
  memory.
- **Ordered keys and bounded scans** (`SortKeys`, `GhostSeek`, `ZOrder`,
  `SpatialKeys`, `Gravity`, `GravityPins`): byte order is value order, ranges are
  exact, and the bucket a query pins is the bucket a write used.
- **Pruned cosine** (`Distance`, `PruningBound`): term identity for any
  arithmetic, and soundness of the early abort over the reals.
- **Pipeline, top-n, cache, zone maps** (`Pipeline`, `Ranking`, `TopN`,
  `RecordCache`, `CacheRuns`, `LruCache`, `FloatOrder`, `ZoneMaps`,
  `ZoneSkipping`).

Floats are their bit patterns; 32- and 64-bit float arithmetic is a parameter.
Text rendering, case folding, the 48-bit hash, estimated sizes, the engine's
operations and the value codecs are parameters too. Hash-map iteration orders
are parameters or arbitrary choices, so what is proved holds for all of them.

## Where the source does not meet the plain claim

Each has a concrete lemma and an exact condition.

- The two aggregate representations differ on non-integer averages, null minima
  and extremes of mixed kinds (`RollupLaws.AgreeIffClean`).
- A ghost over the whole lobe answers an OR query without its predicate, both
  as records and as precomputed groups; conflicting equalities and `= null` on a
  group field are answered wrongly from precomputed groups
  (`OrderedReader.GhostReaderExact`, `Precomputed.WholeLobeExact`,
  `Precomputed.NonFlatExact`). So are float zeros, NaN and dotted group fields
  (`PrecomputedPins.AnyPinsExact`).
- Routing to a record ghost is called a pure rewrite. The reader seeks before it
  filters, so `x < 5` misses the double 1.0, and a lower bound on a dotted order
  field misses what it matches, though the query is a pure AND
  (`OrderedReader.GhostReaderExact`, `SeekLiterals.BetweenIff`).
- A ghost is read in the order of its sort keys. They list every Int before every
  Float, put null first and do not tell timestamps or booleans apart, so ORDER BY
  with LIMIT can return the wrong rows (`OrderedReader.GhostReaderExact`,
  `OrderLiterals.SingleOrderIff`, `OrderLiterals.TimestampsOutOfOrder`).
- A rollup key holds at most 65535 bytes of a group key; a spilled group with a
  longer one is never read back (`SpilledGroups.SpilledExactIff`).
- The comment on the field registry says an acknowledged record is always
  decodable after a crash. A batch that carries no dictionary and commits before
  the batch that does is lost, and so is a record without fields in a lobe
  without names (`CommitOrder.DurableIffGuarded`,
  `CommitGuard.DurableIffLocallyGuarded`,
  `DurableRuns.EveryCommittedRecordReads`). Name number 65537 reuses id 0
  (`FieldDictionary.NewNameReadsBackIff`).
- The ghost seek window is called conservative; it misses numbers compared
  across Int and Float, zeros of the other sign, and records whose order field is
  a dotted path, which the sort key looks up by name
  (`GhostSeek.SeekKeepsAnswerIff`).
- Gravity pinning misses float zeros of the other sign and dotted fields
  (`GravityPins.PinIff`, `GravityPins.BucketScanIff`).
- Top-n calls group keys unique; the tie key joins displayed values by a pipe
  and can tie, for texts that hold a quoted pipe and for numbers displayed alike
  (`TopN.TopIsSortedPrefixIff`, `TopN.QuotedPipesTie`, `TopN.NumbersTie`).
- Reloading a cached record or writing a new one through unbalances the cache's
  books (`CacheRuns.BalancedIffClean`).
- Zone maps skip blocks that mix Int and Float in a field, hold an entry that
  does not decode, or name a field with a dot (`ZoneSkipping.NeverSkipsMatchIff`).

## Model

| member | source | states |
|---|---|---|
| `Aggregates.AggregateState.constructor` | crates/engine/src/aggregate_state.rs:259-266 | a new state is the empty one: no count, no cells, not dirty |
| `Aggregates.AggregateState.AddMetric` | crates/engine/src/aggregate_state.rs:293-320 | adding one metric finds or creates its cell and folds the value in, leaving every other cell alone |
| `Aggregates.AggregateState.Add` | crates/engine/src/aggregate_state.rs:293-320 | adding a record always moves the total and moves each cell whose metric filter passes |
| `Aggregates.AggregateState.SubtractMetric` | crates/engine/src/aggregate_state.rs:323-345 | taking a metric out changes only an existing cell and sets the dirty flag exactly when an extreme may have gone stale |
| `Aggregates.AggregateState.Subtract` | crates/engine/src/aggregate_state.rs:323-345 | taking a record out is exact on counts and sums and marks extremes dirty |
| `Aggregates.AggregateState.Merge` | crates/engine/src/aggregate_state.rs:371-385 | merging a partial state folds counts, cells and the dirty flag |
| `Deltas.RollupDelta.Of` | crates/engine/src/aggregate_state.rs:634-687 | the delta of one record with a sign: its count, one cell per touched metric, dirty exactly on a negative extreme |
| `Deltas.RollupDelta.RecordMetric` | crates/engine/src/aggregate_state.rs:642-684 | one metric of that delta: its signed cell and whether it soils the extremes |
| `Deltas.RollupDelta.constructor` | crates/engine/src/aggregate_state.rs:611-616 | the empty delta |
| `Deltas.RollupDelta.Merge` | crates/engine/src/aggregate_state.rs:690-703 | merging deltas in place is the merge of their values |
| `Deltas.SpillRoundTrip` | crates/engine/src/aggregate_state.rs:709-754 | spilling a state to a delta and reading it back loses nothing |
| `Deltas.SpillMerges` | crates/engine/src/aggregate_state.rs:371-385 | merging spilled partial states is spilling their merge |
| `Deltas.MergeValueLaws` | crates/engine/src/aggregate_state.rs:767-789 | delta cells of one kind merge commutatively and associatively and keep their kind |
| `Deltas.MergeFits` | crates/engine/src/aggregate_state.rs:690-703 | merging keeps a schema |
| `Deltas.MergeCommutes` | crates/engine/src/aggregate_state.rs:690-703 | same-schema integer deltas merge in either order |
| `Deltas.MergeAssociates` | crates/engine/src/aggregate_state.rs:690-703 | and under either nesting |
| `Deltas.MergeUnit` | crates/engine/src/aggregate_state.rs:690-703 | the empty delta is a unit on both sides |
| `Deltas.FoldConcat` | crates/engine/src/rollup_merge.rs:26-35 | folding a chain is folding its parts and merging |
| `Deltas.FoldAnyOrder` | crates/engine/src/rollup_merge.rs:26-35 | a fold depends only on the multiset of deltas |
| `Deltas.FoldAnyGrouping` | crates/engine/src/rollup_merge.rs:26-35 | however merges nest, the result is the flat fold |
| `RollupHistory.InRamCell` | crates/engine/src/aggregate_state.rs:293-345 | over every valid history the in-RAM cell is the reference cell computed from the live and added records |
| `RollupHistory.FoldedCell` | crates/engine/src/aggregate_state.rs:634-703 | the folded delta cell is that same reference cell |
| `RollupLaws.InRamTotals` | crates/engine/src/aggregate_state.rs:293-345 | the in-RAM count is the number of live records and the dirty flag is the reference one |
| `RollupLaws.FoldedTotals` | crates/engine/src/aggregate_state.rs:634-703 | so are the count and flag of the fold |
| `RollupLaws.FoldEqualsInRam` | crates/engine/src/aggregate_state.rs:634-754 | folding the deltas in write order gives the in-RAM state |
| `RollupLaws.AnyFoldEqualsInRam` | crates/engine/src/aggregate_state.rs:634-754 | for every valid history over clean records, in any order and any nesting of merges, the fold is the in-RAM state: count, filtered counts, sums, averages, extremes and dirty flag |
| `RollupLaws.AgreeIffClean` | crates/engine/src/aggregate_state.rs:401-447 | the two representations agree on every history over a set of records exactly when the set is clean: no non-integer averages, no null minima, no extremes of mixed kinds |
| `RollupLaws.Disagreement` | crates/engine/src/aggregate_state.rs:401-447 | every way of being unclean has a history of at most two records on which they differ |
| `RollupLaws.ExtremesAreExtreme` | crates/engine/src/aggregate_state.rs:401-424 | the reference extremes are attained and nothing added lies beyond them |
| `RollupLaws.RebuildAgrees` | crates/engine/src/aggregate_state.rs:323-345 | after any valid history counts, sums and averages equal a rebuild from the live records, and extremes do while the state is not dirty |
| `RollupStore.MergeValues` | crates/engine/src/rollup_merge.rs:26-35 | the merge operator folds what decodes of a chain and re-encodes it |
| `RollupStore.CompactKey` | crates/turba-engine/src/compaction/stream.rs:80-127 | compacting one key keeps the newest sequence number with the fold of the distinct live values, and the delete above the last level |
| `RollupStore.DistinctValues` | crates/turba-engine/src/compaction/stream.rs:91-103 | of adjacent entries with the same sequence number only the first is folded |
| `RollupStore.ReadKey` | crates/turba-engine/src/mvcc.rs:46-110 | a snapshot read is the fold of the distinct visible values newer than the newest visible delete |
| `RollupStore.FoldVisible` | crates/turba-engine/src/mvcc.rs:67-105 | the read loop computes that fold |
| `RollupRuns.EveryRunReadsTheFold` | crates/engine/src/rollup_merge.rs:26-35 | in every run of appends, deletes and compactions of any contiguous parts, the value read is the fold of everything appended since the last delete |
| `RollupRuns.EveryScheduleReadsInRam` | crates/engine/src/aggregate_state.rs:690-754 | if those values are the deltas of a clean history in any order, the state read back is the in-RAM state, under every schedule |
| `RollupRuns.RunMagnitude` | crates/engine/src/aggregate_state.rs:153-199 | the magnitude stored in a chain never exceeds the sum of the magnitudes appended |
| `RollupRuns.RecordMagnitude` | crates/engine/src/aggregate_state.rs:153-175 | the delta of one record weighs at most one 64-bit integer under each label |
| `RollupRuns.SumsStayIn128Bits` | crates/engine/src/aggregate_state.rs:153-199 | with fewer than 2^64 contributions of one 64-bit integer each, no fold of any part of any chain of any run leaves 128 bits |
| `GroupKeys.EncodeGroupKey` | crates/engine/src/aggregate_state.rs:516-524 | the buffer loop writes each fragment behind its length |
| `GroupKeys.ReadFragment` | crates/engine/src/aggregate_state.rs:533-550 | the cursor step reads one length-prefixed fragment or stops |
| `GroupKeys.DecodeGroupKey` | crates/engine/src/aggregate_state.rs:529-553 | the cursor loop decodes the whole key |
| `GroupKeys.DecodeInvertsEncode` | crates/engine/src/aggregate_state.rs:516-553 | decoding inverts encoding for every list of fragments |
| `GroupKeys.EncodeInjective` | crates/engine/src/aggregate_state.rs:516-524 | so group keys are injective |
| `GroupKeys.FragmentRoundTrip` | crates/engine/src/aggregate_state.rs:557-593 | a text, integer or null group value is recovered from its fragment with its type |
| `GroupKeys.FragmentPins` | crates/engine/src/aggregate_state.rs:582-593 | a text or integer fragment is produced by that value and no other |
| `GroupKeys.NullAndMissingShareAGroup` | crates/engine/src/aggregate_state.rs:582-593 | null and a missing field share a fragment that no text or integer has |
| `Filters.Resolve` | crates/core/src/record.rs:471-494 | the path cursor computes the denotation of a dotted path |
| `Filters.SamePredicateSameMeaning` | crates/core/src/record.rs:422-466 | predicates the router considers equal hold of the same records |
| `Filters.SameExprSameMeaning` | crates/engine/src/ops/mod.rs:190-204 | so do filter trees it considers equal |
| `Filters.FlatAndMeaning` | crates/xytalk-parser/src/ast.rs:349-381 | flattening a pure AND tree preserves its meaning |
| `Filters.FlatFiltersNecessary` | crates/engine/src/ops/mod.rs:125-142 | the flat form of any filter is necessary for it |
| `Filters.ReplaceEqual` | crates/core/src/record.rs:422-466 | replacing a field by an equal value changes no filter |
| `Values.EqWithoutZeros` | crates/core/src/value.rs:12-30 | values equal under the derived equality are identical when the literal has no float zero |
| `Values.PartialCmpCongruent` | crates/core/src/value.rs:194-207 | replacing a literal by an equal one never changes a range comparison |
| `Router.GhostRouter.constructor` | crates/engine/src/ghost_router.rs:75-84 | a new router knows no ghost |
| `Router.GhostRouter.RegisterGhost` | crates/engine/src/ghost_router.rs:90-124 | registration stores the ghost with an empty filter tree, ready |
| `Router.GhostRouter.SetFilter` | crates/engine/src/ghost_router.rs:127-133 | only the named ghost's filter tree changes |
| `Router.GhostRouter.SetHasProjection` | crates/engine/src/ghost_router.rs:136-142 | only the named ghost's projection flag changes |
| `Router.GhostRouter.SetAggregateSig` | crates/engine/src/ghost_router.rs:146-152 | only the named ghost's signature changes |
| `Router.GhostRouter.RegisterInRouter` | crates/engine/src/engine/ghosts.rs:779-880 | the engine's registration sequence leaves the ghost's tuples as the flattening of its filter |
| `Router.GhostRouter.RenameGhost` | crates/engine/src/ghost_router.rs:192-199 | promotion moves an entry unchanged and keeps every ghost well registered |
| `Router.GhostRouter.UnregisterGhost` | crates/engine/src/ghost_router.rs:202-205 | only the named ghost goes |
| `Router.GhostRouter.AggregateSigCovers` | crates/engine/src/ghost_router.rs:160-165 | covers exactly when every asked metric is one the ghost precomputes |
| `Router.GhostRouter.PlanScan` | crates/engine/src/ghost_router.rs:262-471 | whatever order the hash map lists its ghosts in, the chosen source passes the tests of its pass |
| `Router.GhostRouter.PickPreComputed` | crates/engine/src/ghost_router.rs:370-424 | pass 1a finds a serving ghost of greatest specificity, or none serves |
| `Router.RelevantContainsAnswer` | crates/engine/src/ghost_router.rs:293-347 | every record a query wants satisfies the filter of a relevant ghost |
| `Router.GhostScanKeepsAnswer` | crates/engine/src/ghost_router.rs:443-470 | routing to a record ghost and re-filtering by the query is filtering the lobe, and that ghost stores whole ungrouped records |
| `GhostReader.ReadTopN` | crates/engine/src/ghost/read.rs:125-190 | the streaming scan of a record ghost: the first n entries inside the seek window that satisfy the flat predicates |
| `GhostReader.GhostAnswerIff` | crates/engine/src/ghost/read.rs:57-190 | for a given lobe, window and flat predicates over a relevant ghost find the rows of the lobe scan exactly when the seek passes by no wanted record; or, for an OR or NOT query that is not the ghost's own expression, exactly when every record is wanted |
| `GhostReader.SameRowsIff` | crates/engine/src/ghost/read.rs:57-190 | for every lobe, ghost id, listing and direction the same rows are found exactly when the query is a pure AND, is the ghost's own expression or excludes nothing, and its literals on the order field let the seek lose no value its filters accept |
| `QueryOrder.ClashIff` | crates/engine/src/ops/scan.rs:1393-1420 | sort keys may list two values against ORDER BY exactly when they clash: null beside anything else or beside a missing field, an Int above a Float, two different timestamps or booleans |
| `QueryOrder.Pop` | crates/engine/src/ops/scan.rs:743-750 | the heap gives up some greatest row |
| `QueryOrder.HeapTop` | crates/engine/src/ops/scan.rs:718-760 | where the comparator orders the rows totally, the bounded heap keeps n rows in order and gives up none that belongs before one it keeps |
| `QueryOrder.RightPrefixesIff` | crates/engine/src/ops/scan.rs:207-220 | every prefix of a listing is a right answer for its LIMIT exactly when the listing is all the rows in order |
| `OrderedReader.SortedIff` | crates/engine/src/ghost/read.rs:125-190 | the rows read are in query order exactly when no two of them have keys in one order and values in the other, key ties decided by the spatial keys included |
| `OrderedReader.OrderedAnswerIff` | crates/engine/src/ops/scan.rs:207-220 | for a given lobe the first n rows read are a right answer for every n exactly when the lobe's rows are found and no two wanted rows are so misordered |
| `OrderedReader.GhostReaderExact` | crates/engine/src/ghost_router.rs:443-470 | for every ghost that serves the query, every lobe, listing and LIMIT the rows read are a right answer exactly when the same rows are always found and, for an ordered query, no two values it lets through at a plain order field clash, or at a dotted or empty one all of them tie |
| `OrderLiterals.FlatOrderIff` | crates/engine/src/ops/scan.rs:1393-1420 | a pure AND is safe to order by a plain field exactly when no two values its predicates accept there clash, or the others cannot hold |
| `OrderLiterals.UnboundOrderIff` | crates/engine/src/ops/scan.rs:1393-1420 | without a predicate on the order field it is never safe, unless nothing matches |
| `OrderLiterals.SingleOrderIff` | crates/engine/src/ops/scan.rs:1393-1420 | with one predicate there, exactly the literals that accept no clash: = and text ranges always, number, timestamp and boolean ranges only at the ends of their types |
| `OrderLiterals.TimestampsOutOfOrder` | crates/engine/src/sort_encoding.rs:99-101 | ORDER BY t LIMIT 1 over timestamps 2 and 1 reads the record of 2 through the ghost |
| `OrderLiterals.OnlyOneIsRight` | crates/engine/src/ops/scan.rs:1393-1420 | there the comparator is total and the only right answer is the record of 1 |
| `GhostReader.GhostReaderLeaks` | crates/engine/src/ghost/read.rs:176-182 | for a query the reader cannot apply again, a record it excludes is returned |
| `SeekLiterals.SingleBoundIff` | crates/engine/src/ghost/read.rs:68-124 | with one predicate on a plain order field the losing literals are: a float zero under =, an Int under <, an Int or -0.0 under <=, a float below (or at) 2^63 under > (or >=) |
| `SeekLiterals.BetweenIff` | crates/engine/src/ghost/read.rs:58-118 | with a lower and an upper bound the losing pairs are: two doubles with an integer between them, two integers with a double between them, a double and an integer with either, and an integer at most zero with -0.0 |
| `GhostReader.FloatIsMissed` | crates/engine/src/ghost/read.rs:95-118 | `x < 5` read through a whole-lobe ghost ordered by x misses the record that holds the double 1.0 |
| `Precomputed.ReadPrecomputed` | crates/engine/src/ghost/read.rs:223-330 | all groups, one point lookup or a filter over decoded keys: in each case the groups the pins select, for groups held in RAM |
| `SpilledGroups.ReadRollups` | crates/engine/src/ghost/read.rs:342-395 | the scan of the rollup keyspace: the decodable entries under the prefix whose group is selected, without empty groups |
| `SpilledGroups.GroupReadsBackIff` | crates/engine/src/ghost/mod.rs:131-173 | a group key reads back from its rollup key exactly when it has at most 65535 bytes |
| `SpilledGroups.RollupKeyStartsIff` | crates/engine/src/ghost/mod.rs:131-139 | no rollup key starts another group's, unless both group keys are cut to the same bytes |
| `SpilledGroups.SpilledReadsAsInRam` | crates/engine/src/ghost/read.rs:330-395 | for storable groups, every listing and all pins the spilled read is the in-RAM selection of the live groups |
| `SpilledGroups.SpilledExactIff` | crates/engine/src/ghost/mod.rs:131-139 | every read of a spilled ghost is the in-RAM read exactly when all its group keys have at most 65535 bytes |
| `Precomputed.SelectGroupsMeaning` | crates/engine/src/ghost/read.rs:243-330 | selecting precomputed groups is grouping the selected records |
| `Precomputed.WantedIsServed` | crates/engine/src/ghost_router.rs:370-424 | a record the query wants is in a group the ghost returns |
| `Precomputed.ServedIsWanted` | crates/engine/src/ghost_router.rs:396-414 | for a pure AND query with consistent pins a returned group holds nothing else |
| `Precomputed.PrecomputedKeepsAnswer` | crates/engine/src/ghost_router.rs:357-424 | for a covered and safe query the precomputed groups and metric values are those of filtering and grouping the whole lobe |
| `Precomputed.GlobalKeepsAnswer` | crates/engine/src/ghost_router.rs:370-424 | without GROUP BY the ghost's global state is the aggregate of the filtered lobe |
| `Precomputed.PrecomputedExact` | crates/engine/src/ghost_router.rs:370-424 | for all literals and group fields the route is right for every lobe exactly when the returned groups hold exactly the wanted records |
| `Precomputed.ScalarExact` | crates/engine/src/ghost_router.rs:396-414 | with plain group fields and text, integer or null literals nothing wanted is missed |
| `PrecomputedPins.AnyPinsExact` | crates/engine/src/ghost/read.rs:243-330 | for a pure AND query on a whole-lobe ghost, with any literals and any group fields: exactly when every equality is on a plain name, equals the first one there, and that one's group holds exactly the values equal to it |
| `PrecomputedPins.FaithfulPinIff` | crates/engine/src/aggregate_state.rs:582-593 | where values are displayed apart, a literal's group is exact unless it is null, holds a NaN or holds a float zero |
| `Precomputed.WholeLobeExact` | crates/engine/src/ghost/read.rs:250-261 | for a pure AND query on a whole-lobe ghost that is: no group field pinned to two literals and none to null |
| `Precomputed.NonFlatExact` | crates/engine/src/ghost_router.rs:396-414 | for an OR or NOT query on a whole-lobe ghost: the query excludes nothing |
| `Precomputed.OrQueryExample` | crates/engine/src/ghost_router.rs:396-414 | `g = 1 OR g = 2` returns the group of 3 |
| `Precomputed.ConflictExample` | crates/engine/src/ghost/read.rs:250-261 | `g = 1 AND g = 2` returns the group of 1 |
| `Precomputed.NullExample` | crates/engine/src/aggregate_state.rs:582-593 | `g = null` returns records without the field |
| `FieldDictionary.FieldDict.constructor` | crates/core/src/field_dict.rs:13-18 | a new dictionary has no names |
| `FieldDictionary.FieldDict.FromPersisted` | crates/core/src/field_dict.rs:21-30 | the inverse map is rebuilt from the names |
| `FieldDictionary.FieldDict.GetOrCreateId` | crates/core/src/field_dict.rs:33-42 | a known name keeps its id, a new one is appended |
| `FieldDictionary.NamesRoundTrip` | crates/core/src/field_dict.rs:21-30 | persisting the names and rebuilding gives a consistent dictionary back |
| `FieldDictionary.GrownKeeps` | crates/core/src/field_dict.rs:33-46 | names are only appended and the new id reads back as its name |
| `FieldDictionary.NewNameReadsBackIff` | crates/core/src/field_dict.rs:33-46 | a new name reads back by its id exactly while fewer than 65536 names exist |
| `Leb128.Write` | crates/core/src/record.rs:204-214 | the varint writer appends the LEB128 form |
| `Leb128.ReadVarint` | crates/core/src/record.rs:181-201 | the varint reader stops at the first byte without continuation, or fails |
| `Leb128.ReadInvertsWrite` | crates/core/src/record.rs:181-214 | reading inverts writing for every 128-bit value with any suffix (section 7.6 of DWARF 5) |
| `Leb128.ReadPrefix` | crates/core/src/record.rs:181-201 | a varint cut short is rejected |
| `VectorColumn.UnpackInvertsPack` | crates/core/src/record.rs:281-284 | packing and unpacking floats is exact |
| `VectorColumn.BuildColumn` | crates/core/src/record.rs:154-172 | the hand-rolled writer produces the column layout |
| `VectorColumn.ColumnReadsWholeOrNot` | crates/core/src/record.rs:227-258 | a column reads back whole and every strict prefix of it is rejected |
| `RecordCodec.CollectIds` | crates/core/src/record.rs:134-141 | the serialization loop grows the dictionary name by name and collects the values under the ids |
| `RecordCodec.SerializeV2` | crates/core/src/record.rs:69-92 | the V2 blob and the grown dictionary |
| `RecordCodec.SerializeV5` | crates/core/src/record.rs:113-175 | the V5 blob without the search vector, its column with the squared norm computed here, and the grown dictionary |
| `RecordCodec.WrittenVectorScores` | crates/core/src/record.rs:154-175 | the column a record is written with reads back as its vector, and scoring it with the stored norm is the plain score or a cut |
| `RecordCodec.CollectedWritten` | crates/core/src/record.rs:134-141 | every collected id stands for a field of the record and every field has an id |
| `RecordCodec.V2RoundTripIff` | crates/core/src/record.rs:299-326 | a V2 record reads back whole under every later dictionary exactly when the names it left behind number at most 65536 |
| `RecordCodec.HydrateColumn` | crates/core/src/record.rs:274-289 | hydration inserts the vector under the name its id stands for, or leaves the record unchanged |
| `RecordCodec.V5BlobFields` | crates/core/src/record.rs:327-350 | the blob alone decodes to everything but the hoisted vector |
| `RecordCodec.V5RoundTripIff` | crates/core/src/record.rs:274-350 | blob and column together read back whole, for every search field and every later dictionary, exactly within the id space |
| `Durability.SerializeBatch` | crates/engine/src/field_registry.rs:55-114 | serialization in either layout, with the norm of the search vector, reports the whole dictionary exactly when it grew |
| `Durability.LobeFieldRegistry.constructor` | crates/engine/src/field_registry.rs:28-33 | a new registry has no dictionaries |
| `Durability.LobeFieldRegistry.LoadFromDisk` | crates/engine/src/field_registry.rs:131-171 | loading skips short keys, undecodable values and empty lists |
| `Durability.LobeFieldRegistry.Entry` | crates/engine/src/field_registry.rs:60-60 | a lobe without a dictionary gets an empty one |
| `Durability.LobeFieldRegistry.SerializeDurable` | crates/engine/src/field_registry.rs:55-114 | the batch for the lobe's own dictionary; other lobes are untouched |
| `Durability.LoadedReloads` | crates/engine/src/field_registry.rs:131-171 | in whatever order the keyspace is scanned, loading finds exactly the persisted non-empty lists |
| `DurableRuns.EveryRunKeeps` | crates/engine/src/field_registry.rs:13-22 | every run that commits in serialization order keeps: disk names extend to memory names through the pending batches, each batch landing covered |
| `DurableRuns.EveryCommittedRecordReads` | crates/engine/src/field_registry.rs:40-47 | in every such run, at every point (after any crash, reload and later growth), a committed V2 or V5 record reads back whole exactly when it has a field or its lobe has a dictionary |
| `DurableRuns.OutOfOrderCommitLosesRecord` | crates/engine/src/field_registry.rs:64-73 | the second of two writes with a new name, committed first, is lost in a crash |
| `DurableRuns.AbandonedBatchLosesRecord` | crates/engine/src/field_registry.rs:64-73 | so it is when the first batch fails to commit |
| `CommitOrder.SerializedSpelled` | crates/core/src/record.rs:113-175 | every fresh batch decodes to its record under the names it was written with, each id standing for a name of its own |
| `CommitOrder.SpelledBelowIff` | crates/core/src/record.rs:308-350 | under fewer names it does so exactly when they cover its ids |
| `CommitOrder.StepKept` | crates/engine/src/field_registry.rs:55-171 | what each guarded step keeps |
| `CommitOrder.DurableIffGuarded` | crates/engine/src/field_registry.rs:40-47 | in every run within the id space, with commits in any order, failed commits and crashes: every record on disk that has a field survives a crash at every point exactly when each commit left the persisted names covering every record on disk |
| `CommitGuard.StepTopped` | crates/engine/src/field_registry.rs:64-114 | in guarded runs the last name of every persisted list is used by a record on disk |
| `CommitGuard.DurableIffLocallyGuarded` | crates/engine/src/field_registry.rs:40-73 | the same, for records that have a field, told locally: exactly when no commit shortened its lobe's persisted names or left its own ids beyond them |
| `SortKeys.EncodeValueOrdered` | crates/engine/src/sort_encoding.rs:57-104 | the buffer writer produces the tagged ordered encoding |
| `SortKeys.PushEscaped` | crates/engine/src/sort_encoding.rs:88-95 | the escaping loop |
| `SortKeys.EncodeSortKey` | crates/engine/src/sort_encoding.rs:27-46 | the key, with everything behind the ghost id complemented in place for descending ghosts |
| `SortKeys.TotalRankAgrees` | crates/engine/src/sort_encoding.rs:70-79 | the float order of the keys (totalOrder, section 5.10 of IEEE 754-2019) is the range-filter order on numbers that differ |
| `SortKeys.ValueOrder` | crates/engine/src/sort_encoding.rs:58-103 | no encoded value is a prefix of another and byte order is value order |
| `SortKeys.SortKeyOrder` | crates/engine/src/sort_encoding.rs:27-46 | between different values keys order as the values do whatever the tiebreaks, and in reverse when inverted |
| `SortKeys.TiebreakOrder` | crates/engine/src/sort_encoding.rs:27-46 | within one value equal-length tiebreaks decide |
| `SortKeys.SortKeyEqualIff` | crates/engine/src/sort_encoding.rs:27-46 | keys are equal exactly when ghost, value and tiebreak are |
| `SortKeys.OrderedTypesNeverTie` | crates/engine/src/sort_encoding.rs:58-103 | different nulls, integers, floats and texts never tie |
| `GhostSeek.ByteSuccessor` | crates/engine/src/ghost/mod.rs:145-155 | the successor loop drops trailing 0xFF bytes and raises the last other |
| `GhostSeek.PrefixRange` | crates/engine/src/ghost/mod.rs:141-155 | the range from a prefix to its successor holds exactly the keys that carry the prefix |
| `GhostSeek.CollectBounds` | crates/engine/src/ghost/read.rs:68-83 | the last equality, lower and upper bound on the ordered field |
| `GhostSeek.InWindowIffKept` | crates/engine/src/ghost/read.rs:84-124 | the byte window holds exactly the keys of values between the bounds, ascending or descending |
| `GhostSeek.MatchingKeptIff` | crates/engine/src/ghost/read.rs:57-68 | for every order field, a matching record is inside the window exactly when its sort key was made from the value the filter sees and that value is not an Int or Float compared across types nor a zero of the other sign, or the value it was made from lies between the bounds |
| `GhostSeek.SeekKeepsAnswerIff` | crates/engine/src/ghost/read.rs:57-68 | for every ghost and filter list, seeking gives the answer of the whole-ghost scan exactly when no entry is lost |
| `GhostSeek.SeekLosesDotted` | crates/engine/src/ghost/mod.rs:1137-1142 | a ghost ordered by the path `a.b` keys its records under null, so `a.b > 5` seeks past them |
| `GhostSeek.SeekLosesFloat` | crates/engine/src/ghost/read.rs:95-118 | `x < 5` misses the indexed double 1.0 |
| `ZOrder.SpreadBits` | crates/core/src/zorder.rs:6-12 | the spreading loop puts bit i at position 2i |
| `ZOrder.CompactBits` | crates/core/src/zorder.rs:15-21 | the compacting loop collects every other bit |
| `ZOrder.Encode` | crates/core/src/zorder.rs:27-29 | encoding interleaves the low 21 bits of both coordinates |
| `ZOrder.Decode` | crates/core/src/zorder.rs:32-36 | decoding reads the even and the odd bits of the low 42 and 43 |
| `ZOrder.DecodeInvertsEncode` | crates/core/src/zorder.rs:27-36 | decoding inverts encoding for every pair of 21-bit coordinates, within 42 bits |
| `SpatialKeys.NewWithSat` | crates/core/src/key.rs:92-134 | constructed keys have a 48-bit gravity and a 21-bit timestamp |
| `SpatialKeys.ToBytes` | crates/core/src/key.rs:137-146 | the fixed buffer is filled with the five big-endian parts |
| `SpatialKeys.FromBytesInverts` | crates/core/src/key.rs:137-166 | decoding inverts encoding for every constructed key |
| `SpatialKeys.KeyOrder` | crates/core/src/key.rs:137-146 | byte order is lexicographic order of lobe, gravity, satellite, z and sequence number |
| `SpatialKeys.PrefixForGravity` | crates/core/src/key.rs:178-197 | the bounds of a gravity bucket, zero- and 0xFF-padded |
| `SpatialKeys.PrefixForSatellite` | crates/core/src/key.rs:213-235 | the bounds of one satellite |
| `SpatialKeys.RangeIffPrefix` | crates/core/src/key.rs:172-197 | a full-length key lies in a padded range exactly when it carries the prefix |
| `SpatialKeys.GravityRangeIff` | crates/core/src/key.rs:178-197 | a constructed key lies in the gravity range exactly when it has that lobe and masked gravity |
| `SpatialKeys.SatelliteScanIsPartOfBucket` | crates/core/src/key.rs:199-235 | the satellite scan is the in-order part of the bucket scan with that satellite |
| `Gravity.ComputeGravityHash` | crates/engine/src/ops/put.rs:334-343 | the joining loop hashes the values separated by zero bytes |
| `Gravity.FindEq` | crates/engine/src/gravity_spec.rs:189-199 | the inner loop finds the one equality on a gravity field, or none |
| `Gravity.PinnedGravityHash` | crates/engine/src/gravity_spec.rs:181-204 | the nested loops compute the pinned hash, or none |
| `Gravity.PinnedIsPlaced` | crates/engine/src/gravity_spec.rs:164-204 | where the literals hold no float zero and the names are plain, a pinned bucket is the bucket of every record the filters match |
| `GravityPins.EqPinsIff` | crates/engine/src/gravity_spec.rs:189-202 | an equality fixes the stored value exactly when its literal has no float zero or is never matched |
| `GravityPins.PinIff` | crates/engine/src/gravity_spec.rs:164-204 | for every specification (raw, normalized, composite) and every filter list that pins it, the pinned bucket is right for every matching record and every hash exactly when nothing matches, or all gravity fields are plain names and no pinned literal holds a float zero |
| `GravityPins.EqualitiesPinIff` | crates/engine/src/gravity_spec.rs:164-204 | with one equality per gravity field: exactly when some literal matches nothing, or all names are plain and no literal holds a float zero |
| `GravityPins.SinglePinIff` | crates/engine/src/gravity_spec.rs:164-204 | for a single raw or normalized field |
| `GravityPins.BucketScanIff` | crates/engine/src/ops/scan.rs:560-618 | scanning only the pinned bucket gives the rows of the whole-lobe scan in key order, for every content and every hash, exactly under that condition |
| `GravityPins.SignedZeroMisses` | crates/engine/src/gravity_spec.rs:189-202 | `x = 0.0` misses the record that holds -0.0 |
| `GravityPins.DottedFieldMisses` | crates/engine/src/gravity_spec.rs:211-216 | a dotted gravity field is resolved as a path by the filter but looked up by name when placing |
| `Distance.ReduceLanes` | crates/core/src/distance.rs:138-138 | the lanes are widened and summed one after the other |
| `Distance.DotAcc` | crates/core/src/distance.rs:130-145 | the lane loop, reduction and tail compute the canonical dot term over the unpacked bytes |
| `Distance.DotSelfBytes` | crates/core/src/distance.rs:152-166 | the self dot of packed bytes is the same term as the dot of the unpacked vector with itself |
| `Distance.NormSq` | crates/core/src/distance.rs:207-209 | the stored norm is the dot of a vector with itself |
| `Distance.StoredNormIsLiveNorm` | crates/core/src/record.rs:157-175 | a column built with the vector's norm reads back as the vector's bytes and a norm equal to the one computed live from those bytes |
| `Distance.StoredColumnScores` | crates/core/src/distance.rs:285-347 | scoring such a column with its stored norm is the plain score of its vector, or a cut |
| `Distance.SimilarityCosine` | crates/core/src/distance.rs:223-240 | the plain cosine, or nothing for wrong shapes or a zero norm |
| `Distance.SuffixNorm2` | crates/core/src/distance.rs:248-255 | the reverse loop fills the suffix sums of squares |
| `Distance.Blocks` | crates/core/src/distance.rs:311-337 | the blocked loop finishes the lanes unless some block boundary cuts |
| `Distance.CosinePruned` | crates/core/src/distance.rs:285-347 | the pruned scorer returns the full quotient, or nothing exactly when shapes disagree, a norm is zero or some block boundary cuts |
| `Distance.SurvivorIsSimilarity` | crates/core/src/distance.rs:257-347 | for any arithmetic, block size and shapes, with the norm stored or live: the pruned scorer returns what the plain scorer returns, and withholds a defined score only by a cut |
| `PruningBound.DotIsSum` | crates/core/src/distance.rs:130-145 | over the reals the lane arithmetic is the plain sum of products |
| `PruningBound.CauchySchwarz` | crates/core/src/distance.rs:257-263 | a sum of products is bounded by the product of the norms |
| `PruningBound.BoundHolds` | crates/core/src/distance.rs:325-334 | at every chunk boundary partial dot plus tail norms bounds the final dot |
| `PruningBound.AbortsOnlyBelowThreshold` | crates/core/src/distance.rs:257-347 | over the reals, for every query, candidate, threshold and block size, the pruned scorer returns the cosine, or nothing when the cosine is strictly below the threshold |
| `PruningBound.WithheldOnlyBelowThreshold` | crates/core/src/distance.rs:257-347 | so over the stored bytes, of any shape, no candidate whose score reaches the threshold is withheld |
| `TopN.RowOrderIsTotal` | crates/engine/src/planner.rs:302-316 | the comparator is a total preorder |
| `TopN.SelectNth` | crates/engine/src/planner.rs:318-323 | partial selection: any arrangement inside the library's contract |
| `TopN.ApplyTop` | crates/engine/src/planner.rs:272-327 | truncation without BY, an error for an unknown metric, otherwise selection, truncation and a sort of the survivors |
| `TopN.TopIsSortedPrefixIff` | crates/engine/src/planner.rs:265-327 | every possible result is the first n of the sorted rows exactly when n is not below the row count or none of those n ties with a different row |
| `TopN.DisplayedApartIsExact` | crates/engine/src/ghost/metric_order.rs:160-168 | groups displayed differently, with no pipe in what is displayed, never tie, so the clause is sort-all-then-truncate |
| `TopN.TopIsIdempotent` | crates/engine/src/planner.rs:104-107 | applying the clause to its own result changes nothing |
| `TopN.TiedRowsBothWin` | crates/engine/src/planner.rs:318-325 | of two rows that tie, TAKE 1 may return either |
| `TopN.QuotedPipesTie` | crates/engine/src/ghost/metric_order.rs:160-168 | texts are displayed in quotes, and two different groups whose texts hold a quoted pipe are still displayed alike |
| `TopN.NumbersTie` | crates/core/src/value.rs:229-236 | so are Int 1 and the double 1.0 |
| `Ranking.SelectThenSortIff` | crates/engine/src/planner.rs:318-325 | selecting then sorting is the sorted prefix for every selection exactly without ties at the cut |
| `Pipeline.Engine.constructor` | crates/engine/src/planner.rs:10-10 | a pipeline starts with an empty trace |
| `Pipeline.Engine.RunSteps` | crates/engine/src/planner.rs:127-263 | the step loop answers and calls what the recursive reading of the pipeline does |
| `Pipeline.Engine.ExecutePipeline` | crates/engine/src/planner.rs:10-119 | which fused form runs for which shape; a tail behind SCAN and NEAREST runs on the fused result with its stop |
| `Pipeline.Engine.AfterNearest` | crates/engine/src/planner.rs:36-68 | the fused prefix followed by its tail |
| `Pipeline.BudgetStopTravels` | crates/engine/src/planner.rs:127-263 | after a budget stop every tail ends in an error or a page with more to come that carries the same stop, and no SET, DELETE or AGGREGATE is called |
| `Pipeline.ConsumingTailFails` | crates/engine/src/planner.rs:136-153 | a tail with such a step anywhere is always refused |
| `Pipeline.PureTailKeepsRanking` | crates/engine/src/planner.rs:212-243 | projections and truncations keep the ranking: the best records, as many as the smallest TAKE allows |
| `LruCache.LruCache.constructor` | crates/engine/src/record_cache.rs:40-48 | a new cache is empty |
| `LruCache.LruCache.Touch` | crates/engine/src/record_cache.rs:56-62 | an access takes the next clock value |
| `LruCache.LruCache.Snapshot` | crates/engine/src/record_cache.rs:74-85 | the sorted snapshot lists the cached keys from least to most recently used |
| `LruCache.LruCache.EvictOldest` | crates/engine/src/record_cache.rs:69-109 | eviction is the eviction run over that order |
| `LruCache.LruCache.EvictInOrder` | crates/engine/src/record_cache.rs:87-108 | the eviction loop |
| `LruCache.LruCache.LoadRecords` | crates/engine/src/record_cache.rs:113-157 | loading makes room, then inserts and accounts, or is refused |
| `LruCache.LruCache.Get` | crates/engine/src/record_cache.rs:162-169 | a hit returns the record and touches it |
| `LruCache.LruCache.ScanLobe` | crates/engine/src/record_cache.rs:183-201 | a scan returns the records that pass and touches each |
| `LruCache.LruCache.UpdateRecord` | crates/engine/src/record_cache.rs:204-209 | write-through inserts when the lobe is cached |
| `LruCache.LruCache.InvalidateRecord` | crates/engine/src/record_cache.rs:212-223 | invalidation drops one record and its bytes |
| `LruCache.LruCache.EvictLobe` | crates/engine/src/record_cache.rs:226-236 | evicting a lobe drops its records, bytes and clock entries |
| `LruCache.SnapshotSorted` | crates/engine/src/record_cache.rs:74-85 | sorting any listing of the clock gives the unique eviction order |
| `RecordCache.EvictsShortestPrefix` | crates/engine/src/record_cache.rs:64-109 | eviction removes exactly the shortest least-recently-used prefix that frees the request, or everything |
| `RecordCache.OverwritesNothingIff` | crates/engine/src/record_cache.rs:148-155 | a batch writes over nothing exactly when its LIDs are distinct and uncached |
| `CacheRuns.EveryRunIsGood` | crates/engine/src/record_cache.rs:14-25 | in every run the bytes on the books stay within the budget and the clock holds exactly the cached keys, with distinct values |
| `CacheRuns.EveryCleanRunIsBalanced` | crates/engine/src/record_cache.rs:50-54 | in every run whose loads bring only new records and whose write-throughs are safe, the bytes on the books are the bytes held |
| `CacheRuns.UpdateBalancesIff` | crates/engine/src/record_cache.rs:204-209 | writing through keeps balanced books exactly when the lobe is not cached or a record of the same size is replaced |
| `CacheRuns.StepBalancesIff` | crates/engine/src/record_cache.rs:113-236 | every operation keeps balanced books exactly when it is clean |
| `CacheRuns.BalancedIffClean` | crates/engine/src/record_cache.rs:50-54 | the books are balanced at every point of a run exactly when every step of it is clean |
| `CacheRuns.NewLoadIsClean` | crates/engine/src/record_cache.rs:142-156 | loading distinct uncached records is clean |
| `CacheRuns.LoadBalancesIff` | crates/engine/src/record_cache.rs:142-156 | a load keeps the books exactly when every record was new at insertion |
| `CacheRuns.BatchWithinBudgetLoads` | crates/engine/src/record_cache.rs:110-140 | with balanced books a batch loads exactly when it fits the total budget |
| `CacheRuns.ReloadBlocksBatch` | crates/engine/src/record_cache.rs:110-157 | loading a record twice lets a batch within the budget be refused |
| `CacheRuns.WriteThroughOverfills` | crates/engine/src/record_cache.rs:204-209 | two write-throughs hold 30 bytes in a cache of 20 while the books say 10 |
| `ZoneMaps.Builder.constructor` | crates/engine/src/zone_map.rs:39-43 | a builder starts with empty maps |
| `ZoneMaps.Builder.Add` | crates/engine/src/zone_map.rs:53-83 | one field of one record updates that field's minimum, maximum and null flag |
| `ZoneMaps.Builder.AddRecord` | crates/engine/src/zone_map.rs:53-84 | all fields of one record |
| `ZoneMaps.Builder.BuildBlockZoneMap` | crates/engine/src/zone_map.rs:39-107 | the builder's loops give each tracked field its folded zone |
| `ZoneMaps.MightMatch` | crates/engine/src/zone_map.rs:114-158 | the evaluator passes a block exactly when no predicate rejects it |
| `ZoneMaps.ValuesInZone` | crates/engine/src/zone_map.rs:66-82 | every non-null tracked value lies within its field's zone |
| `ZoneSkipping.RejectedOnlyOutside` | crates/engine/src/zone_map.rs:123-155 | a predicate a record satisfies rejects the block only if the value the predicate sees lies outside its field's zone |
| `ZoneSkipping.NeverSkipsMatchIff` | crates/engine/src/zone_map.rs:114-172 | for every block and every zone map, no filter ever skips a matching record exactly when no record resolves a zoned name to a value outside its zone |
| `ZoneSkipping.DecodedOnlyStrays` | crates/engine/src/zone_map.rs:39-107 | in the zones the builder makes, a decoded record's plain field is outside exactly when it is an Int or Float outside a zone of the other type |
| `ZoneSkipping.UnmixedBlocksAreSafe` | crates/engine/src/zone_map.rs:114-172 | decoded blocks that do not mix Int and Float in a field are safe for filters on plain or unzoned names |
| `ZoneSkipping.MixedBlockLosesMatch` | crates/engine/src/zone_map.rs:162-172 | Int 5 and the double 10.0: the block is skipped for `x > 7` |
| `ZoneSkipping.UndecodedEntryIsLost` | crates/engine/src/zone_map.rs:46-51 | an entry that does not decode is missing from the zones |
| `ZoneSkipping.DottedNameLosesMatch` | crates/engine/src/zone_map.rs:53-66 | a field named `a.b` is zoned under the name by which a filter reaches into `a` |
| `FloatOrder.IntToF64Monotone` | crates/core/src/value.rs:200-201 | converting integers to doubles never reverses their order |

## Left out

- Float (Neumaier) sums: their merge is modelled, but the algebraic laws are for integer sums, since compensated addition does not associate.
- Snapshot reads older than a compacted version: compaction folds a whole run under its newest sequence number.
- Widths of counters: record counts, cache clocks and byte totals are unbounded here.
- postcard, bincode and base64: taken as exact inverse pairs; a blob of a format that needs a dictionary and has none is a failed read.
- Conversion of parsed literals to values, and the parser itself.
- The MCP server, command line, launcher, telemetry, redaction and JSON mapping.
- The storage engine's trees, write-ahead log and tables: a keyspace is a map or a chain of versions.
- Precomputed.ReadPrecomputed: for the in-RAM map; the spilled branch is SpilledGroups.ReadRollups, over entries the merge operator has already folded.
- Grouped scans of the primary keyspace as they are written: they join canonical keys by a pipe and apply only flat predicates, so they drop an OR too (crates/engine/src/ops/scan.rs, lines 1179-1265). The precomputed answers are compared with grouping the filtered lobe by the ghost's own keys.
- Projected ghosts: their reader skips the filters by design and only the routing condition that excludes them is modelled.
- Satellite routing (which satellite a query pins) and its 16-bit hash; only the satellite range is.
- The metric-ordered rollup that serves the top n directly; only the selection over grouped rows is.
- Dot and Euclidean scores, and the NEAREST heap.
- Concurrency inside the record cache: sequential runs only.
- DurableRuns.EveryCommittedRecordReads: stated for runs that stay within 65536 names per lobe; beyond that see RecordCodec.V2RoundTripIff and RecordCodec.V5RoundTripIff.
- RollupRuns.SumsStayIn128Bits: bounds the folds of stored values; the in-RAM sums are not bounded separately.
- Gravity.PinnedIsPlaced: stated for literals without a float zero on plain field names; the exact condition, for every specification and filter list, is GravityPins.PinIff.
- SeekLiterals.SingleBoundIff: for one predicate on a plain order field; a lower and an upper bound are SeekLiterals.BetweenIff, and beyond that GhostReader.SameRowsIff asks for a value that all predicates accept and the bounds lose.
- OrderLiterals.SingleOrderIff: for one predicate on a plain order field; with several, OrderLiterals.FlatOrderIff asks for two values that all of them accept and that clash.
- QueryOrder.HeapTop: promises nothing on rows the comparator does not order totally, such as a NaN or two integers that round to one double beside it; the ghost's rows are judged pair by pair, which needs no total order.
- PrecomputedPins.AnyPinsExact: for ghosts over the whole lobe; a ghost with a filter has the condition of Precomputed.PrecomputedExact over records.
- LIMIT on aggregates: the primary path stops after that many records (crates/engine/src/ops/scan.rs, lines 1215-1260), the precomputed route ignores it (lines 1077-1086).
