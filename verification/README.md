# Proofs about InfluxDB's write path and query kernels

This project models four parts of InfluxDB 1.x and proves what they are for:

- the **write/delete epoch protocol** of a shard, with the guards that decide which writes a
  pending delete holds back;
- the **line protocol**: scanning a series key into its canonical form, printing and parsing keys,
  escaping, fields, cutting oversized points, and scaling timestamps without overflow;
- the **routing of a write batch** to shard groups;
- the **query kernels**: the merging cursor, top and bottom, aggregates over shards, GROUP BY time
  windows with their bucket count, the windowed integral, and the life of a query task.

Every theorem is about all inputs, all runs or all reachable states. Concurrent code is a
transition system over the steps between locks; code that updates fields or arrays is a class or an
array method proved against a function of the old state; the theorems are about those functions.
Bytes are `seq<byte>`, Go's `int64` wraps explicitly (`Int64.dfy`), and Go's truncating `/` and `%`
are written out. Each file's header says which source file it models.

What stands out:

- **Epoch protocol** (`EpochTracker.dfy`, `EpochProtocol.dfy`, `EpochOverlaps.dfy`, `Guards.dfy`). In
  every interleaving no write that a delete's guard matches is writing while the delete runs, and any
  other write may be; the pending counter is exactly the number of earlier writes still to report, and
  nothing can deadlock. The guard simplifier keeps the meaning of every expression, and exactly the
  points that a guard misses are known.
- **Series keys** (`LineScan.dfy`, `KeyGrammar.dfy`, `TagOrder.dfy`, `ScanKey.dfy`). `scanKey`
  accepts exactly the lines of a grammar, and lines that differ by a permutation of tags get
  byte-identical keys. `MakeKey` followed by `ParseKeyBytes` gives name and tags back exactly when
  no backslash stands right before a separator (`Escaping.dfy`, `KeyTexts.dfy`, `KeyRoundTrip.dfy`,
  `KeyRoundTripIff.dfy`).
- **Shard routing** (`ShardList.dfy`, `ShardMapping.dfy`). The lookup in overlapping groups returns the
  documented group exactly for the sets of groups whose sort order agrees with the documented one,
  and mapped plus dropped points are the batch.
- **Cursor** (`Cursor.dfy`, `CursorMerge.dfy`, `CursorValues.dfy`). The rows are the ordered union of
  the scanners' keys, each once, or, when scanners fail, exactly the keys due before the failure. Every
  column shows exactly the expected value, carried over only inside a series.
- **Integral** (`Integral.dfy`, `IntegralWindows.dfy`, `IntegralLosses.dfy`). Area is conserved at every
  point of every run, every emitted value is the area of its stretch of the curve, and exactly the
  inputs for which `Close` discards area are identified: ascending, descending and ungrouped.
- **Query tasks** (`TaskProtocol.dfy`, `TaskManager.dfy`). In every interleaving a task's channel is
  closed at most once and ids are never reused; each method of the manager is shown to be a run of
  that protocol.

## Where the code does not do what is said of it

- A delete with a condition such as `host != 'a'` also selects points without the tag `host`, but the
  guard made from it does not match them (`Guards.MissingTagEscapesGuard`); exactly when a comparison
  and a whole condition are covered is `Guards.LeafCoversIffSafe` and `Guards.GuardCoversIff`.
- The comments on deletes (tsdb/store.go:1259-1260, tsdb/store.go:1725-1726) say that a delete waits for
  prior deletes and that later deletes that could conflict wait for it. `WaitDelete` counts writes only,
  so any two deletes can run together, whatever their guards (`EpochOverlaps.DeletesCanMeet`). A delete
  waits for all earlier writes (`EpochProtocol.MutualExclusion`), and exactly the writes that its guard
  matches can never run beside it (`EpochOverlaps.WriteCanMeetIff`).
- `sgList` documents an order by end time and then start time (coordinator/points_writer.go:387-392).
  The sort it calls uses the truncation time of a truncated group instead (services/meta/data.go:1423-1438),
  while the search uses end times, so with truncated groups a less preferred group can be returned
  (`ShardLists.TruncationBreaksPreference`), also for groups that a batch creates on demand
  (`ShardMappings.BatchLosesPreference`). The documented group is always returned if and only if
  overlapping groups sort as documented (`ShardLists.PreferenceHoldsIff`). The model follows the code.
- Names and tags with a backslash right before a separator do not survive `MakeKey` and `ParseKeyBytes`
  (`KeyRoundTripIff.RoundTripIff`, `KeyRoundTripIff.BackslashBreaksRoundTrip`).
- `MakeKey` keeps the order of the plain tag keys. Escaping can change the order, and then a line with
  that key is scanned to a different key (`KeyRoundTrip.PrintedKeyIsFixedIff`,
  `KeyRoundTrip.PlainOrderIsNotEscapedOrder`).
- `StringSize` is 18 too small for the time `math.MinInt64`, whose negation wraps (`PointSplits.StringSize`).
- In ascending order the integral drops area when the last point is at the start of its window and a
  window was skipped before it (`IntegralLosses.AscendingConservesIff`,
  `IntegralLosses.SkippedWindowLosesArea`), and without GROUP BY time when the last point is at time
  zero (`IntegralLosses.UngroupedConservesIff`, `IntegralLosses.LastAtZeroLosesArea`). In descending
  order a point on the lower bound of the window of the point before it makes that window come a second
  time, with value zero
  (`IntegralLosses.DescendingRepeatsIff`, `IntegralLosses.BoundRepeatsWindow`).
- Without an offset the last time of all, `MaxTime`, is not in the window that `Window` returns for it
  (`Windows.WindowHoldsIff`, `Windows.LastTimeIsOutside`).
- The bucket count compared with `max-select-buckets` overflows for a range of about 292 years or more,
  and is then not positive (`Windows.WideRangeIsNotCounted`); it is one too low for a range that begins
  in the window clipped at `MinTime` and goes on behind it (`Windows.ClippedWindowIsNotCounted`).
  Otherwise it is right (`Windows.BucketsCountWindowsIff`).
- `safeSignedMult` refuses -1 times `MaxNanoTime` and `MinNanoTime` times -1, which fit, and believes the
  lowest 64-bit integer times -1, which does not; everywhere else it is exact (`Timestamps.MultIsExact`,
  `Timestamps.UnbelievedProducts`). No precision has these multipliers.
- The `Aggregated` count of a merged result is one too high for each shard whose own count is a
  multiple of 2^32 (`Aggregates.MergedWeightIff`, `Aggregates.LostWeightIsCounted`).
- The count of the mean wraps at 2^32. A shard whose count is a multiple of 2^32 still emits a point, which
  has no finite value and is then counted once, so the merged mean and count are wrong
  (`Means.MergedMeanIff`, `Means.LostCountLosesMean`). The mean is the true one only below 2^32 points
  (`Means.MeanIsTrueIff`).
- The comment of `AttachQuery` allows query ids to be reused; the code never reuses one
  (`TaskProtocol.IdsAreNotReused`).

## Model

| member | source | states |
|---|---|---|
| `Guards.SimplificationPreservesMeaning` | tsdb/guard.go:90-143 | For every expression and point, the simplified guard matches exactly when evaluating the unsimplified expression (unanalysable leaves true, the literal false false) is true |
| `Guards.SimplifierReducesFully` | tsdb/guard.go:95-143 | No constant is left below an and or an or: a simplified guard is constant or free of constants |
| `Guards.KeyedLeafCovers` | tsdb/guard.go:146-217 | A true comparison of a tag or the measurement with a literal, in either operand order, is matched by its guard if it is safe for the point |
| `Guards.LeafCoversIffSafe` | tsdb/guard.go:146-217 | A comparison's guard matches whenever the comparison can be true, whatever uninterpreted leaves mean, if and only if the leaf is safe for the point |
| `Guards.SafeTreeCovers` | tsdb/guard.go:95-143 | On points for which every leaf is safe, a true condition always matches its guard |
| `Guards.GuardCoversDelete` | tsdb/guard.go:24-55 | A batch that holds a point selected by a delete (time, measurement, condition) matches the delete's guard if the condition is safe for that point |
| `Guards.GuardCoversIff` | tsdb/guard.go:24-55 | For a point within a delete's time range and measurements: whatever uninterpreted leaves mean, a condition that selects the point also makes the guard match it, if and only if it does so with all those leaves true |
| `Guards.FullyTaggedIsSafe` | tsdb/guard.go:146-217 | Points that carry every tag key of the condition, with `_name` compared only with strings, are safe |
| `Guards.MissingTagEscapesGuard` | tsdb/guard.go:146-253 | A concrete point that `host != 'a'` selects and the guard misses |
| `Guards.AnyTagMatches` | tsdb/guard.go:220-253 | The loop over a point's tags finds a tag with the key and the wanted equality if and only if the guard's meaning says so |
| `Guards.AnyTagExists` | tsdb/guard.go:220-253 | The loop finds one of the keys if and only if the point has such a tag |
| `Guards.ExprMatches` | tsdb/guard.go:220-253 | The recursive matcher computes the meaning of the guard |
| `Guards.GuardMatches` | tsdb/guard.go:39-55 | The loop over a batch returns true exactly when some point is in time range, measurement and condition; a nil guard matches every batch, the empty one included |
| `EpochTracking.DeleteCell.Done` | tsdb/epoch_tracker.go:37-44 | One write fewer is pending, and waiters are woken exactly when none is left |
| `EpochTracking.EpochTracker.StartWrite` | tsdb/epoch_tracker.go:63-80 | A fresh generation, one more write, and every pending delete's guard exactly once in the order of the map walk |
| `EpochTracking.EpochTracker.EndWrite` | tsdb/epoch_tracker.go:83-99 | Whatever the order of the map walk, exactly the deletes with a generation not below the write's are notified once, and one write fewer is counted |
| `EpochTracking.EpochTracker.WaitDelete` | tsdb/epoch_tracker.go:127-147 | A pending delete is added under a fresh generation, waiting for all current writes |
| `EpochTracking.EpochTracker.Remove` | tsdb/epoch_tracker.go:118-123 | Done removes exactly this delete |
| `EpochTracking.NotifyOneMore` | tsdb/epoch_tracker.go:83-99 | Notifying deletes one by one in any order is notifying them all |
| `EpochProtocol.StepKeepsInv` | tsdb/epoch_tracker.go:61-147 | Every step of every participant keeps the invariant: generations, guards still to pass, pending counters and the half-done EndWrite |
| `EpochProtocol.RunKeepsInv` | tsdb/epoch_tracker.go:61-147 | The invariant holds in every state of every run |
| `EpochProtocol.MutualExclusion` | tsdb/store.go:1831-1869 | While a delete is between Wait and Done, earlier writes have finished writing and later writes that its guard matches have not begun |
| `EpochProtocol.PendingIsEarlierWrites` | tsdb/epoch_tracker.go:37-53 | A delete's counter is the number of unfinished writes with a smaller generation that have not notified it; later writes never count |
| `EpochProtocol.EndWriteIsAtomic` | tsdb/epoch_tracker.go:83-99 | The notifications under the lock, interleaved with other threads' steps, add up to one EndWrite |
| `EpochProtocol.OldestCanMove` | tsdb/epoch_tracker.go:46-53 | In every invariant state with something pending some step that is no arrival is enabled: that of the operation with the smallest generation or, while the mutex is held, the holder's |
| `EpochProtocol.StepUsesUpWork` | tsdb/epoch_tracker.go:61-147 | Without new arrivals every step decreases a measure, so no schedule goes on forever |
| `EpochProtocol.EverythingCanFinish` | tsdb/epoch_tracker.go:61-147 | From every invariant state there is a run in which every pending write and delete finishes |
| `EpochProtocol.StuckMeansFinished` | tsdb/epoch_tracker.go:61-147 | A reachable state in which only arrivals are possible has nothing pending: no deadlock |
| `EpochOverlaps.WriteCanMeetIff` | tsdb/store.go:1831-1869 | Some run has a delete and a write at work together if and only if the delete's guard does not match the write's points |
| `EpochOverlaps.DeletesCanMeet` | tsdb/epoch_tracker.go:127-147 | For any two guards some run has both deletes at work together |
| `ShardLists.SortGroups` | coordinator/points_writer.go:393-435 | Sorting gives a permutation in the order of the source's Less, and no more than that |
| `ShardLists.LookupFindsContaining` | coordinator/points_writer.go:393-435 | Nothing is returned if and only if no group contains the time, and what is returned contains it, for overlapping and unsorted lists too |
| `ShardLists.LookupReturnsSortFirst` | coordinator/points_writer.go:393-435 | For orderly lists no containing group sorts before the returned one |
| `ShardLists.LookupRefinesScan` | coordinator/points_writer.go:364-435 | For orderly lists (no group truncated, or overlapping groups that sort as documented) binary search, range shortcut and linear fallback together return the containing group with least end and then least start, or nothing if none contains the time |
| `ShardLists.PreferenceHoldsIff` | coordinator/points_writer.go:364-435 | For any groups as they are created and truncated, every sorted list of them answers every time with the documented group if and only if overlapping groups that the sort does not put the other way round are in the documented order |
| `ShardLists.TruncationBreaksPreference` | services/meta/data.go:1423-1438 | Three groups, one truncated, for which a less preferred group is returned |
| `ShardLists.Search` | coordinator/points_writer.go:393-435 | The binary search loop returns a position whose predecessor ends at or before the time and whose own group ends after it |
| `ShardLists.LinearSearch` | coordinator/points_writer.go:393-435 | The fallback loop returns the first containing group's position, or the length |
| `ShardLists.FindGroup` | coordinator/points_writer.go:393-435 | Search, shortcut and fallback compute the lookup |
| `ShardLists.SgList.Add` | coordinator/points_writer.go:438-449 | The group is appended and earliest and latest stay the bounds of all groups |
| `ShardLists.SgList.ShardGroupAt` | coordinator/points_writer.go:393-435 | None if and only if no group added so far contains the time; otherwise a containing group, the documented one when the groups are orderly; the items are only rearranged |
| `ShardLists.SgList.Covers` | coordinator/points_writer.go:377-382 | True if and only if some group added so far contains the time |
| `ShardMappings.ShardFor` | services/meta/data.go:1480-1485 | The shard at the hash modulo the number of shards |
| `ShardMappings.ShardMapping.MapPoint` | coordinator/points_writer.go:203-209 | Exactly this shard's slice changes, by the capacity rule of the source, and the shard is among the mapped ones |
| `ShardMappings.ShardMapping.AddDropped` | coordinator/points_writer.go:156-173 | Exactly one of the two drop counters grows by one, and the latest and earliest dropped points are kept |
| `ShardMappings.MapPointKeepsAll` | coordinator/points_writer.go:203-209 | With the batch size as capacity, mapping a point never discards points already mapped |
| `ShardMappings.MappedPlusDropped` | coordinator/points_writer.go:299-360 | The points held by the shards' slices plus the points routed nowhere are the batch |
| `ShardMappings.ReportedOneMore` | coordinator/points_writer.go:156-173 | One more dropped point keeps the reported one the first of the latest, or of the earliest, dropped points, with the bound it violates and the reason |
| `ShardMappings.CreateGroups` | coordinator/points_writer.go:299-336 | Groups are created in order, one for each in-scope point that no earlier group contains, and then every in-scope point is covered; errors come from the creating call |
| `ShardMappings.RoutePoints` | coordinator/points_writer.go:337-360 | Every shard gets exactly its points in input order, every other point is counted as dropped once, and the latest and earliest of those are reported |
| `ShardMappings.MapShards` | coordinator/points_writer.go:299-360 | On success every point that keeps the write limits and is in retention lands on a shard of a containing group, points that break a limit are dropped, per-shard order is kept, points mapped plus Dropped() is the size of the batch, the drop counts are exact and the reported latest and earliest dropped points are that, with the bound they violate; every error has its cause |
| `ShardMappings.BatchLosesPreference` | coordinator/points_writer.go:299-360 | A batch of four points whose groups are created on demand and for one of which a less preferred group is found |
| `Bytes.LessTotal` | models/points.go:751-756 | Byte strings are totally ordered by the comparison used for tag keys |
| `LineScan.ScanTo` | models/points.go:1166-1182 | Stops at the first unescaped stop byte, or at the end |
| `LineScan.ScanToSpaceOr` | models/points.go:1187-1209 | Stops at the first unescaped space or stop byte behind the first one, or at the end |
| `LineScan.SkipWhitespace` | models/points.go:1097-1105 | Stops at the first byte that is not whitespace |
| `LineScan.ScanMeasurement` | models/points.go:598-629 | The name ends at the first unescaped comma or space; a missing name or separator is an error |
| `LineScan.ScanTagsKey` | models/points.go:678-704 | The key ends at its first unescaped separator, which must be an equals sign behind a non-empty key |
| `LineScan.ScanTagsValue` | models/points.go:707-741 | The value ends at the first unescaped comma or space; an empty value or an equals sign is an error |
| `KeyGrammar.ParseIsSound` | models/points.go:634-675 | Tags that the scan accepts lie in the buffer as well-formed tags at the recorded starts |
| `KeyGrammar.ParseIsComplete` | models/points.go:634-675 | Any well-formed tags lying in the buffer are the tags that the scan finds |
| `KeyGrammar.KeyParseIsSound` | models/points.go:492-586 | An accepted key section is a well-formed name and tags |
| `KeyGrammar.KeyParseIsComplete` | models/points.go:492-586 | Every well-formed key section is accepted, with that very name and those tags |
| `TagOrder.AscendingIsUnique` | models/points.go:492-586 | A multiset of tags has at most one arrangement with strictly ascending keys |
| `ScanKeys.ScanTags` | models/points.go:634-675 | The state machine with its growing index array finds the starts of exactly the parsed tags, or the parse's error at its position |
| `ScanKeys.InsertionSort` | models/points.go:743-749 | The offsets are permuted in place into the order of their tag keys, and nothing behind them changes |
| `ScanKeys.LessAt` | models/points.go:751-756 | Compares the two tag keys at the given offsets |
| `ScanKeys.CheckOrder` | models/points.go:492-586 | In order means strictly ascending keys, and a duplicate reported here is one |
| `ScanKeys.FindDuplicate` | models/points.go:492-586 | After sorting, equal neighbours are found if and only if two tag keys are equal |
| `ScanKeys.Rebuild` | models/points.go:492-586 | The buffer of the computed length is filled exactly with the name and the tags in sorted order |
| `ScanKeys.SortTags` | models/points.go:492-586 | Duplicate if and only if two raw keys are equal, otherwise the canonical key |
| `ScanKeys.ScanKey` | models/points.go:492-586 | On every buffer: the grammar's error and position, or duplicate tags if and only if two raw keys are equal, or the name followed by exactly the input tags in strictly ascending key order |
| `ScanKeys.AcceptedIffGrammar` | models/points.go:492-586 | A line is accepted, up to duplicate tags, if and only if some key section of the grammar begins it, wherever that ends; then one ends at the returned position |
| `ScanKeys.PermutedLinesSameKey` | models/points.go:492-586 | Lines with the same name and a permutation of the same tags are both duplicates or get byte-identical keys |
| `ScanKeys.CanonicalKeyIsFixed` | models/points.go:492-586 | Scanning a line that begins with an already canonical key gives the same key |
| `Escaping.Escape` | models/points.go:1254-1286 | The loop over the escape codes computes the escaped string |
| `Escaping.UnescapeInPlace` | models/points.go:1263-1299 | The loop over the escape codes computes the unescaped string |
| `Escaping.EscapeIsOnePass` | models/points.go:1254-1286 | Replacing code after code equals one pass that puts a backslash before every coded byte |
| `Escaping.UnescapeUndoesEscape` | models/points.go:1254-1299 | Unescaping an escaped string gives it back, for every byte string |
| `KeyTexts.NeedsEscape` | models/points.go:2215-2226 | True if and only if some key or value holds a coded byte |
| `KeyTexts.AppendHashKey` | models/points.go:2229-2284 | Appends the printed form of the tags with non-empty values, and the precomputed size is always enough |
| `KeyTexts.MakeKeyText` | models/points.go:1641-1652 | The unescaped name, escaped again, followed by the printed tags |
| `KeyTexts.NextTag` | models/points.go:1540-1578 | One round of the walk: the next key and value, or none when the value is empty or the equals sign is missing |
| `KeyTexts.ParsedTagsFit` | models/points.go:1611-1638 | The number of commas is enough room for all parsed tags |
| `KeyTexts.ParseTagList` | models/points.go:1611-1638 | Parses the walked tags, unescaped when the buffer holds a backslash |
| `KeyTexts.ParseKeyText` | models/points.go:300-318 | Splits the name at the first unescaped space or comma, unescapes it and parses the tags |
| `KeyRoundTrip.EscapedIsFree` | models/points.go:1254-1286 | An escaped string holds no unescaped separator |
| `KeyRoundTrip.WalkReadsTags` | models/points.go:1540-1578 | Walking printed tags yields exactly those tags |
| `KeyRoundTrip.ParseUndoesMake` | models/points.go:300-318 | Parsing a printed key gives back the name, unescaped, and the tags with non-empty values, when no backslash stands right before a separator |
| `KeyRoundTripIff.RoundTripIff` | models/points.go:300-318 | For every non-empty name and all tags, parsing the printed key gives back the unescaped name and the tags with non-empty values if and only if no backslash stands right before a separator |
| `KeyRoundTripIff.BackslashBreaksRoundTrip` | models/points.go:300-318 | A key with one tag that does not come back |
| `KeyRoundTrip.NameUnchangedIff` | models/points.go:1263-1276 | The name comes back unchanged if and only if it holds no escaped comma and no escaped space |
| `KeyRoundTrip.PrintedLineIsSectionIff` | models/points.go:1641-1652 | For every name and all tags, a printed key in front of a space is a key section of the scanner's grammar with the printed name and tags if and only if name, keys and values are not empty, do not end in a backslash, and the name does not begin with a tab or a zero byte |
| `KeyRoundTrip.PrintedKeyIsScannedIff` | models/points.go:492-586 | Under exactly the same condition the scanner finds the printed name and tags and stops behind the printed key |
| `KeyRoundTrip.PrintedKeyIsFixedIff` | models/points.go:1641-1652 | The scanner returns a printed key unchanged if and only if its escaped tags are ascending |
| `KeyRoundTrip.PlainOrderIsNotEscapedOrder` | models/points.go:1646-1652 | Two tags ascending by plain key whose escaped keys are not |
| `Fields.ScanFieldValue` | models/points.go:1229-1252 | The value ends at the first comma outside quotes; only quotes and backslashes are escaped |
| `Fields.UnescapeStringField` | models/points.go:1316-1344 | The loop, with its shortcut, removes exactly the backslashes before quotes and backslashes |
| `Fields.UnescapeUndoesEscapeString` | models/points.go:1306-1344 | Unescaping an escaped string field gives it back, for every string |
| `Fields.ValueIsScanned` | models/points.go:1229-1252 | A quoted escaped string or a plain token is scanned to exactly its end |
| `Fields.WalkAllFields` | models/points.go:1586-1607 | The loop yields the fields of the walk, up to the first field without a value |
| `Fields.WalkUndoesPrint` | models/points.go:1586-1607 | For all keys without an unescaped equals sign or trailing backslash and all quoted or plain values, walking comma-joined fields yields exactly those keys and values and succeeds if and only if the last value is not empty; otherwise it yields all but the last field and fails |
| `PointSplits.StringSize` | models/points.go:1722-1741 | The length of the point's text, if and only if its time is not the lowest 64-bit integer, and 18 less there |
| `PointSplits.PrintedIsFielded` | models/points.go:1880-1914 | Every printed field list is a well-formed section whose fields are the printed ones |
| `PointSplits.FieldsInSlice` | models/points.go:1166-1252 | A slice between field boundaries has exactly the fields it had in the whole section |
| `PointSplits.Split` | models/points.go:1880-1914 | The pieces' fields, in order, are the point's fields, and rejoining the pieces with commas gives its field section byte for byte; key and time are kept; every piece has one field or a StringSize within the limit |
| `Timestamps.DividingBackIsExact` | models/time.go:64-74 | For every second factor but zero, multiplying, wrapping and dividing back gives the first factor if and only if the product fits 64 bits or is the lowest integer times -1 |
| `Timestamps.MultIsExact` | models/time.go:64-74 | For all factors a product is believed if and only if it fits, but for three products that are named, and a believed product is exact, but for one |
| `Timestamps.CalcTimeIsExact` | models/time.go:46-61 | For every timestamp and precision, the time is accepted if and only if timestamp times the nanoseconds of the unit is between MinNanoTime and MaxNanoTime, and then it is that product |
| `Timestamps.UnbelievedProducts` | models/time.go:64-74 | The three products: two that fit and are refused, one that does not and is believed |
| `Cursors.BeforeIsOrder` | query/cursor.go:285-325 | Keys by name, tag ID and time are strictly and totally ordered in both directions |
| `Cursors.FirstIsFirst` | query/cursor.go:285-325 | No scanner is at a key before the chosen one |
| `Cursors.MultiScannerCursor.FirstKey` | query/cursor.go:285-316 | The loop over the scanners finds the first key, or reports the error of a failed scanner |
| `Cursors.MultiScannerCursor.ScanAll` | query/cursor.go:321-325 | Every scanner at the key is advanced by one point and no other, and each stores its value or default |
| `Cursors.MultiScannerCursor.Scan` | query/cursor.go:183-227 | One row for the first key, with the map cleared and the series id raised if and only if the series changes; at the end or on an error the cursor is unchanged |
| `CursorMerge.ReadAll` | query/cursor.go:183-227 | Reading to the end gives all rows, and an error if and only if the cursor ends broken |
| `CursorMerge.RowsAreTheDueKeys` | query/cursor.go:285-325 | A row comes for a key if and only if some scanner has the key and every scanner that fails has not failed before it |
| `CursorMerge.DueIsUnion` | query/cursor.go:285-325 | Without failing scanners those keys are the union of the scanners' keys |
| `CursorMerge.RowsAreOrdered` | query/cursor.go:285-325 | Rows come in strictly ascending or descending key order, so each key comes once |
| `CursorMerge.ErrorIffFailing` | query/cursor.go:285-300 | The cursor ends in an error if and only if some scanner fails |
| `CursorValues.StoredIsExpected` | query/iterator.gen.go:3191-3242 | ScanAt leaves in the scanner's column its value at the key, or the fill value, or the last earlier value of the same series |
| `CursorValues.RowsHoldExpected` | query/cursor.go:183-227 | In every row every column holds exactly that, so no value crosses a series boundary |
| `CursorValues.ReadExpected` | query/cursor.go:183-227 | Reading a fresh cursor to its end gives rows whose every column holds the scanner's value at the row's key, the fill value, or the last earlier value of the series |
| `TopN.BestAreBest` | query/functions.go:1934-1943 | The first n of the sorted input are in order of value, ties by earlier time, and each of them beats every point left out |
| `TopN.RootIsWorst` | query/functions.go:1945-1960 | The root of the heap is the worst kept point |
| `TopN.Up` | query/functions.go:1945-1960 | Moving a pushed point up gives a heap of the same points |
| `TopN.Down` | query/functions.go:1945-1960 | Moving a replaced root down gives a heap of the same points |
| `TopN.RootIsNth` | query/functions.go:1945-1960 | The root of a full heap is the n-th of the sorted input |
| `TopN.KeepsOneMore` | query/functions.go:1945-1960 | After one more point the heap holds the n best of all points seen |
| `TopN.Reducer.Aggregate` | query/functions.go:2083-2098 | The heap is kept as the n best of the points seen, for top and for bottom |
| `TopN.Reducer.Emit` | query/functions.go:1962-1974 | Returns the first n of all points seen, sorted best first, and leaves the heap alone |
| `TopN.RankedIsUnique` | query/functions.go:2100-2112 | Value and time leave only one sorted arrangement, so an unstable sort is enough |
| `TopN.Select` | query/functions.go:1930-1974 | For every input stream the result is the first n of the fully sorted input |
| `Aggregates.IntegerFuncReducer.AggregateInteger` | query/functions.gen.go:618-631 | The new time and value come from the reduce function, and Aggregated grows by the points behind the new point, modulo 2^32 |
| `Aggregates.ReduceWindow` | query/iterator.gen.go:4001-4105 | The points of one series and window through one reducer, stamped with the window's start if it gives no time |
| `Aggregates.FoldAdds` | query/call_iterator.go:114-119 | Counts and sums are the total over all points in 64 bits |
| `Aggregates.FoldSelects` | query/call_iterator.go:186-271 | min, max, first and last, booleans included, give one of the points, smallest, largest, earliest or latest with the stated tie-break |
| `Aggregates.MergeIsReduction` | query/iterator.go:150-164 | However points are split into non-empty groups, in whatever order, reducing the groups' results gives the time and value of one reduction; counts are merged by sum |
| `Aggregates.MergedWeightIff` | query/functions.gen.go:618-631 | The merged Aggregated equals that of one reduction if and only if the number of groups weighing a multiple of 2^32 is a multiple of 2^32 |
| `Aggregates.LostWeightIsCounted` | query/functions.gen.go:618-631 | Two groups, one weighing 2^32, whose merged Aggregated is 2 and not 1 |
| `Means.FloatMeanReducer.AggregateFloat` | query/functions.go:115-123 | A partial mean weighs as much as the points behind it, and one if it has no count; a value that is not finite makes the sum so |
| `Means.FloatMeanReducer.Emit` | query/functions.go:126-132 | A point always comes, with the count as Aggregated; its value is the sum over the count, and not finite at count zero |
| `Means.ReduceMean` | query/functions.go:104-132 | The weighted mean of the samples in the wrapping count, with that count, for any number of points |
| `Means.MeanOfRawPoints` | query/functions.go:115-132 | For raw points that is their sum over their number |
| `Means.MergedMeanIff` | query/functions.go:115-132 | However any number of points is split into groups, empty ones included, in whatever order: the mean of the means is that of one reduction, value and count, if and only if no non-empty group's count is zero modulo 2^32, or the number of such groups is zero modulo 2^32 too and one reduction has no finite mean either |
| `Means.MeanIsTrueIff` | query/functions.go:115-132 | The emitted mean is the true mean if and only if the points are finite and fewer than 2^32 of them stand behind it, or their sum is zero and the count has not wrapped to zero |
| `Means.LostCountLosesMean` | query/functions.go:115-132 | Two groups, one counting 2^32, whose merged mean is not finite and counts 2 instead of 1; and the first of them alone, which counts 1 instead of 0 |
| `Windows.WindowIsTrueIff` | query/iterator.go:807-887 | For every time Window returns the mathematical window if and only if that window lies between MinTime and MaxTime and fits 64 bits, and the shift to the zone does not wrap or the duration divides 2^64 |
| `Windows.WindowHoldsIff` | query/iterator.go:807-887 | For every time the exact condition for it to be in the window returned for it; for times whose shift by offset and zone fits, that is to lie from MinTime up to, but not, MaxTime, shifted by the offset, with a clipped window that fits 64 bits |
| `Windows.LastTimeIsOutside` | query/iterator.go:807-887 | Without offset and zone the window returned for MaxTime ends at MaxTime, so MaxTime is not in it |
| `Windows.WindowsPartition` | query/iterator.go:807-887 | Up to both time limits: a time is in its window, and a second time is in it if and only if it has the same window; a window is one duration long if and only if it is not clipped, and then starts at the offset |
| `Windows.BucketsCountWindowsIff` | query/compile.go:1201-1220 | For every range between the time limits the bucket formula is the number of distinct windows meeting [StartTime, EndTime-1] if and only if the span of those windows fits 64 bits and the range does not go on behind a clipped first window |
| `Windows.WideRangeIsNotCounted` | query/compile.go:1208-1219 | A range whose bucket count is not positive though it meets windows |
| `Windows.ClippedWindowIsNotCounted` | query/compile.go:1208-1219 | A range that meets eleven windows and counts ten |
| `Integrals.CutKeepsArea` | query/functions.go:1609-1620 | Cutting a segment at an interpolated point keeps its area |
| `Integrals.FloatIntegralReducer.AggregateFloat` | query/functions.go:1586-1635 | Computes one step of the reducer: state and what is put into the one-slot channel |
| `Integrals.FloatIntegralReducer.Close` | query/functions.go:1655-1664 | Flushes the sum unless the last point is at the window's start |
| `Integrals.Integrate` | query/iterator.gen.go:1211-1275 | Emitting after every point and after closing, the channel never overflows and all values come out in order |
| `Integrals.RunConserves` | query/functions.go:1586-1635 | For every list of points, in any order and direction, emitted values plus the held sum are the signed area so far |
| `IntegralWindows.EmissionsTile` | query/functions.go:1586-1664 | In ascending and in descending order, equal times and windows clipped at the time limits included, each emitted value is the area from the end of the window emitted before to the end of its own window |
| `IntegralWindows.EmissionsAreWindowAreas` | query/functions.go:1586-1664 | In both directions, with no wholly empty window each emitted value is the area inside its window; a window that comes twice has value zero the second time |
| `IntegralLosses.AscendingConservesIff` | query/functions.go:1655-1664 | In ascending order area is conserved if and only if the last point is not at its window's start or no area lies in the last segment behind the window in which it begins |
| `IntegralLosses.DescendingConserves` | query/functions.go:1655-1664 | In descending order area is always conserved |
| `IntegralLosses.NothingLeftOver` | query/functions.go:1655-1664 | With no wholly empty window area is conserved in both directions |
| `IntegralLosses.UngroupedConservesIff` | query/functions.go:1655-1664 | Without GROUP BY time area is conserved if and only if the last time is not zero or the area is zero |
| `IntegralLosses.DescendingRepeatsIff` | query/functions.go:1586-1635 | In descending order some window is emitted twice in a row if and only if some point lies on the lower bound of the window of the point before it, at another time |
| `IntegralLosses.SkippedWindowLosesArea` | query/functions.go:1655-1664 | Two points, 25 units of area, 5 emitted |
| `IntegralLosses.LastAtZeroLosesArea` | query/functions.go:1655-1664 | Two ungrouped points, one unit of area, nothing emitted |
| `IntegralLosses.BoundRepeatsWindow` | query/functions.go:1586-1664 | Two points in descending order and the same window emitted twice |
| `TaskManagers.Task.Close` | query/executor.go:516-524 | The task is killed and its channel closed, which is never closed twice, as in the protocol |
| `TaskManagers.Task.Kill` | query/executor.go:526-536 | The same, and it reports whether the task was running |
| `TaskManagers.TaskManager.AttachQuery` | query/task_manager.go:195-243 | The manager goes where the protocol's attach leads: refused if and only if shut down or at a positive limit, otherwise a fresh running task under an id never given out |
| `TaskManagers.TaskManager.KillQuery` | query/task_manager.go:248-257 | The manager goes where lookup and kill lead: it succeeds if and only if the query is attached and running, and leaves it killed; no other task changes |
| `TaskManagers.TaskManager.DetachQuery` | query/task_manager.go:261-273 | The manager goes where detaching leads: exactly this query is removed, and it is killed |
| `TaskManagers.TaskManager.Close` | query/task_manager.go:338-349 | The manager goes where a whole shutdown leads: every attached task is killed with the shutdown error, and none is left |
| `TaskProtocol.AttachLeads` | query/task_manager.go:195-243 | The effect of AttachQuery is one step of the protocol |
| `TaskProtocol.KillLeads` | query/task_manager.go:248-257 | The effect of KillQuery is a run of lookup and kill |
| `TaskProtocol.DetachLeads` | query/task_manager.go:261-273 | The effect of DetachQuery is a run of its two steps |
| `TaskProtocol.CloseLeads` | query/task_manager.go:338-349 | The effect of Close is a run that stops every attached task |
| `TaskProtocol.StepKeepsInv` | query/task_manager.go:195-273 | Every step of attach, lookup, kill, detach and close keeps the invariant |
| `TaskProtocol.RunIsSafe` | query/executor.go:516-536 | In every state of every run a channel is closed once if its task is killed and not at all otherwise, the limit holds, and detached tasks are killed |
| `TaskProtocol.RunIsLater` | query/task_manager.go:195-273 | Along a run ids only grow, killed tasks stay as they are and a shutdown is final |
| `TaskProtocol.IdsAreNotReused` | query/task_manager.go:195-243 | Two queries attached in one run have different ids |
| `TaskProtocol.ShutdownIsFinal` | query/task_manager.go:338-349 | After a shutdown every task ever attached is killed with its channel closed once, also under later kills of earlier lookups, and none can attach |
| `TaskProtocol.ClosingCanFinish` | query/task_manager.go:338-349 | A shutdown in progress can be completed from every invariant state, in one step for each task left and one more, and then exactly those tasks have been closed |

## Left out

- Condition variables, mutexes and channels as such: the protocols take one step per critical section.
- The zero `epochWaiter` and 64-bit wrap-around of epochs, write counts and query ids, which are unbounded here.
- `ShardLists.SgList.Add`: groups that start or end at Go's zero time, which the source reads as "bound not set"; that time is far below `MinNanoTime`, so no group is created there.
- `ShardMappings.MapShards`: messages and statistics; `CreateShardGroup` and the clock are parameters, and a created group is taken to contain the time it was created for.
- Scanning of field values, numbers, booleans and timestamps in a whole line (`scanFields`, `scanTime`, `scanLine`), and line splitting.
- `ScanKeys.InsertionSort`: the lower bound of the sorted range, which is always zero.
- `Fields.WalkAllFields`: a callback that stops the walk early.
- `LineScan.ScanToSpaceOr`: buffers in which no stop is found and that end in a backslash, behind which the source reads out of bounds.
- `PointSplits.Split`: field sections that are empty, that end in a comma, or in which a field has no equals sign, all of which `scanFields` refuses.
- `Windows.WindowIsTrueIff`: time zones whose offset changes; the zone is a constant.
- `Windows.BucketsCountWindowsIff`: ranges that begin or end with a time that is not in its own window.
- `IntegralWindows.EmissionsTile`: times that are not in their own windows, such as `MaxTime`, and points out of order.
- `Integrals.RunConserves`: rounding of floating point, and differences of times over 2^63 nanoseconds.
- `Means.MeanIsTrueIff`: rounding of floating point; infinities and not-a-number are one value.
- `Cursors.MultiScannerCursor.Scan`: evaluation of the selected expressions over the map, auxiliary fields and casts of fill values; scanners are values, so none is shared.
- `CursorValues.RowsHoldExpected`: scanners that share a column; the planner gives each its own.
- `CursorValues.ReadExpected`: the same.
- `Aggregates.ReduceWindow`: nil points, the map from series to reducers, and the order in which series are put out.
- `TopN.Reducer.Aggregate`: the heap is a sequence that is replaced, not a slice that is updated in place; auxiliary fields and `Aggregated` of points are not kept.
- The float, unsigned and string copies of the generated reducers, and the integer and unsigned integrals.
- Storage, the metadata store, statement execution, encodings, statistics and logging.
