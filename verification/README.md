# Run-table Arrow export and namespace middleware, in Dafny

This project models two pieces of the tracking server.

**The Arrow export of the run table** (`GET /search/runs/arrow`). The handler works in these steps:

1. It takes the namespace that the middleware stored in the request context.
2. It applies the query-string rules for `limit`, `offset` and `report_progress`.
3. It fetches one page of runs from the namespace, newest `row_num` first. With an offset, the page holds only the runs below the offset run's `row_num`.
4. It discovers the distinct metric, param and tag keys of that page, each list in key order.
5. It builds the dense Arrow schema:
   - seven fixed columns;
   - one `metrics:<key>` Float64 column per metric key;
   - one `params:<key>` string column per param key;
   - one `tags:<key>` string column per tag key.
6. It projects every run onto that schema. A metric the run lacks is null, and a metric flagged not-a-number is NaN. A param or tag the run lacks is null.
7. It appends the rows to a record builder and writes a record every 1000 runs, with a final flush for the remainder.

**The namespace middleware.** A path `/ns/<code>/...` selects namespace `<code>` and has its `/ns/<code>` prefix removed; any other path selects the `default` namespace. The `no-cache` header is parsed as a Go boolean. The repository lookup can end three ways:

- it fails, and the middleware answers with an internal error naming the code;
- it finds nothing, and the answer is a 404 naming the code;
- it finds the namespace, which is stored in the request context before the next handler runs.

Modules, one per concept:

- `Wrappers`: Option and Result.
- `Runs`: the run record and its attribute lists.
- `KeyOrder`: the key order and the `DISTINCT … ORDER BY key` result.
- `KeyDiscovery`: the page's key lists.
- `ArrowSchema`: the schema, with the `BuildSchema` loop method and the `Schema` function that specifies it.
- `RowProjection`: the per-run lookup maps, built by loops, and the row of cells.
- `RecordBuilding`: a `RecordBuilder` class whose columns are appended to in place and which `NewRecord` resets.
- `Batching`: the 1000-row chunking and the transposition of rows into columns.
- `StreamEncoder`: the export loop over the runs, proved against the `Export` function.
- `SearchRuns`: request planning, the fetched page and the whole handler. `SearchRunsArrow` is the handler as written; `SearchRunsArrowIntended` is the same handler with the corrected offset bound (see Findings).
- `NamespaceMiddleware`: the middleware above.

## Model

| member | source | states |
|---|---|---|
| NamespaceMiddleware.ParseBool | pkg/common/middleware/namespace/namespace.go:29-32 | true exactly for 1, t, T, TRUE, true, True; false exactly for 0, f, F, FALSE, false, False; no value otherwise |
| NamespaceMiddleware.NoCache | pkg/common/middleware/namespace/namespace.go:29-32 | the cache is bypassed exactly when the `no-cache` header is one of the six spellings of true |
| NamespaceMiddleware.NoCacheUnparsable | pkg/common/middleware/namespace/namespace.go:29-32 | a `no-cache` header that does not parse (or is absent) means the cache is used |
| NamespaceMiddleware.FirstSlash | pkg/common/middleware/namespace/namespace.go:24 | the result is the first `/` at or after the start position, and no `/` precedes it there |
| NamespaceMiddleware.MatchNamespace | pkg/common/middleware/namespace/namespace.go:24-36 | a matched code is non-empty and free of `/`, and the path begins `/ns/<code>/` |
| NamespaceMiddleware.MatchNamespaceComplete | pkg/common/middleware/namespace/namespace.go:24 | every path `/ns/<code>/<rest>` whose code is non-empty and free of `/` matches with exactly that code |
| NamespaceMiddleware.NoTrailingSlashNoMatch | pkg/common/middleware/namespace/namespace.go:24 | `/ns/<code>` with no slash after the code does not match and so falls back to the default namespace |
| NamespaceMiddleware.ResolvedCode | pkg/common/middleware/namespace/namespace.go:35-52 | the code looked up is `default` when the path does not match, and otherwise a non-empty code without `/` that the path begins with after `/ns/` |
| NamespaceMiddleware.RewrittenPath | pkg/common/middleware/namespace/namespace.go:49-50 | the path handed on is a suffix of the request path, and the path itself when it does not match |
| NamespaceMiddleware.RewrittenPathMeaning | pkg/common/middleware/namespace/namespace.go:49-50 | after a match, the path handed on is the original minus exactly `/ns/<code>` and still starts with `/`; an unmatched path is unchanged |
| NamespaceMiddleware.GetNamespaceFromContext | pkg/common/middleware/namespace/namespace.go:71-77 | fails, with the fixed message, exactly when the context holds no namespace pointer; otherwise returns the stored pointer, nil included |
| NamespaceMiddleware.Handle | pkg/common/middleware/namespace/namespace.go:28-66 | internal error exactly when the lookup of the resolved code fails; not-found exactly when it finds nothing; both messages name the code; on success the path is rewritten, the header is kept, and the context yields the namespace found |
| NamespaceMiddleware.DefaultCodeScenarios | tests/integration/golang/aim/namespace/namespace_test.go:38-47 | the explicit `/ns/default/...` and the plain `/experiments` both resolve to the code `default`, and the not-found message names `default` |
| KeyOrder.LessTotal | pkg/api/aim/arrow.go:147-148 | key order is total on distinct keys (it is also irreflexive and transitive: `LessIrreflexive`, `LessTransitive`) |
| KeyOrder.InsertKey | pkg/api/aim/arrow.go:147-148 | inserting into a strictly ascending key list keeps it strictly ascending and adds exactly the new key |
| KeyOrder.SortedDistinct | pkg/api/aim/arrow.go:147-148 | the result is strictly ascending and holds exactly the keys of the input |
| KeyOrder.SortedUnique | pkg/api/aim/arrow.go:144-149 | two strictly ascending lists with the same keys are equal, so a distinct, ordered key query has one possible answer |
| KeyDiscovery.PageMetricKeysMembership | pkg/api/aim/arrow.go:165-175 | a key is among the gathered metric keys iff some run of the page has a metric with that key |
| KeyDiscovery.PageEntryKeysMembership | pkg/api/aim/arrow.go:143-163 | a key is among the gathered param (tag) keys iff some list has an entry with that key |
| KeyDiscovery.DiscoverKeys | pkg/api/aim/arrow.go:139-175 | all three key lists are strictly ascending; an excluded kind has no keys |
| KeyDiscovery.DiscoveredKeysPresent | pkg/api/aim/arrow.go:139-175 | for each kind that is not excluded, a key is discovered iff some run of the page carries it |
| KeyDiscovery.DiscoveredMetricKeysUnique | pkg/api/aim/arrow.go:165-175 | any strictly ascending list of exactly the page's metric keys is the discovered list |
| KeyDiscovery.DiscoveredSchemaNamesDistinct | pkg/api/aim/arrow.go:183-209 | the schema built from discovered keys never repeats a column name |
| KeyDiscovery.DiscoveredColumnsUsed | pkg/api/aim/arrow.go:228-270 | every attribute column has a non-null cell in the row of some run of the page |
| ArrowSchema.BuildSchema | pkg/api/aim/arrow.go:183-210 | the fields built are `Schema(keys, ex)`; the metric index is 7 and the param and tag indexes are where those blocks start |
| ArrowSchema.AppendKeyFields | pkg/api/aim/arrow.go:194-196 | each per-kind loop appends one field `prefix + key` of the kind's type per key, in key order |
| ArrowSchema.SchemaLayout | pkg/api/aim/arrow.go:183-209 | the seven fixed fields come first, then the metric, param and tag blocks, each column named by prefix and key, in order, and nothing else |
| ArrowSchema.SchemaExclusions | pkg/api/aim/arrow.go:192-209 | excluding traces puts the param block at index 7; excluding params ends the schema at the param index; with no exclusion the width is 7 plus the three key counts |
| ArrowSchema.SchemaNamesDistinct | pkg/api/aim/arrow.go:194-208 | with strictly ascending key lists, no two columns share a name (prefixes separate the kinds, and no fixed name starts with m, p or t) |
| RowProjection.MetricMap | pkg/api/aim/arrow.go:229-236 | every value in the per-run metric map is a non-null float cell (a number or NaN) |
| RowProjection.MetricMapLastWins | pkg/api/aim/arrow.go:229-236 | a key is in the metric map iff the run has a metric with it, and then the last such entry's value (NaN when flagged) wins |
| RowProjection.TextMapLastWins | pkg/api/aim/arrow.go:247-250 | a key is in the param (tag) map iff the run has an entry with it, and then the last such entry's value wins |
| RowProjection.CollectMetrics | pkg/api/aim/arrow.go:229-236 | the loop builds exactly `MetricMap` of the run's latest metrics |
| RowProjection.CollectText | pkg/api/aim/arrow.go:247-250 | the loop builds exactly `TextMap` of the run's params (tags) |
| RowProjection.LastMetricExists | pkg/api/aim/arrow.go:230-236 | a metric key that occurs has a last occurrence, the one whose value the map keeps |
| RowProjection.RowCellAt | pkg/api/aim/arrow.go:219-270 | cell `j` of a run's row is its fixed cell, its metric cell, or its param or tag cell, according to the block that `j` falls in |
| RowProjection.CellFits | pkg/api/aim/arrow.go:219-270 | cell `j` is null or of the type of column `j` |
| RowProjection.RowFitsSchema | pkg/api/aim/arrow.go:219-270 | every cell of a row fits the type of its column |
| RowProjection.FixedCellsMeaning | pkg/api/aim/arrow.go:220-226 | id, name and experiment name as strings; both timestamps present and equal to the stored integers even when NULL; archived iff deleted; active iff running |
| RowProjection.MetricCellMeaning | pkg/api/aim/arrow.go:237-243 | a metric cell is null iff the run lacks the key, is NaN iff its last entry is flagged, and otherwise holds that entry's value |
| RowProjection.TextCellMeaning | pkg/api/aim/arrow.go:251-269 | a param or tag cell is null iff the run lacks the key, and otherwise holds the last entry's value |
| RecordBuilding.RecordBuilder.constructor | pkg/api/aim/arrow.go:216 | a builder over the schema starts with one empty column per field |
| RecordBuilding.RecordBuilder.Append | pkg/api/aim/arrow.go:220-226 | appends a non-null value of the column's type to column `j` only |
| RecordBuilding.RecordBuilder.AppendNull | pkg/api/aim/arrow.go:241 | appends a null to column `j` only |
| RecordBuilding.RecordBuilder.Len | pkg/api/aim/arrow.go:279 | the number of entries in column `j` |
| RecordBuilding.RecordBuilder.NewRecord | pkg/api/aim/arrow.go:273 | hands out the columns built so far and leaves every column empty |
| Batching.ChunksFlatten | pkg/api/aim/arrow.go:272-283 | the batches, concatenated, are the rows: nothing is lost, duplicated or reordered |
| Batching.ChunksSizes | pkg/api/aim/arrow.go:272-283 | ceil(n / 1000) batches, each of 1 to 1000 rows, all but the last exactly 1000 |
| Batching.ChunksExtend | pkg/api/aim/arrow.go:279-283 | after whole batches, a tail of 1 to 1000 rows is exactly one more batch |
| Batching.ChunkAt | pkg/api/aim/arrow.go:272-276 | row `r` of batch `k` is row `1000k + r` |
| Batching.ChunkLength | pkg/api/aim/arrow.go:272-283 | batch `k` has 1000 rows, or the remainder when it is the last |
| Batching.ChunkOfRow | pkg/api/aim/arrow.go:272-276 | row `n` is entry `n % 1000` of batch `n / 1000` |
| Batching.TransposeSnoc | pkg/api/aim/arrow.go:219-270 | appending a row cell by cell to the columns of a batch gives the columns of the batch extended by that row |
| Batching.StreamColumnInOrder | pkg/api/aim/arrow.go:272-283 | reading column `j` across the records in order gives column `j` of the rows, in row order |
| Batching.RecordShape | pkg/api/aim/arrow.go:272-283 | each record has one column per field, all of its batch's length |
| Batching.EncodedExtend | pkg/api/aim/arrow.go:279-283 | flushing a batch after whole batches adds exactly its record at the end |
| Batching.StreamStep | pkg/api/aim/arrow.go:272-276 | one loop turn extends the pending batch, and at a multiple of 1000 the pending batch is exactly the next record |
| Batching.StreamEnd | pkg/api/aim/arrow.go:279-283 | after the loop, the pending rows are the last record when there are any, and nothing remains otherwise |
| StreamEncoder.AppendCell | pkg/api/aim/arrow.go:220-226 | appends the row's cell to the next column, the earlier columns having theirs already |
| StreamEncoder.AppendFixed | pkg/api/aim/arrow.go:220-226 | the seven fixed cells of the run are appended to columns 0 to 6 |
| StreamEncoder.AppendMetricBlock | pkg/api/aim/arrow.go:228-244 | per metric key, the run's value, NaN or null is appended to the key's column |
| StreamEncoder.AppendTextBlock | pkg/api/aim/arrow.go:246-269 | per param (tag) key, the run's value or null is appended to the key's column |
| StreamEncoder.RowLayoutHolds | pkg/api/aim/arrow.go:219-270 | each block of a run's row sits at its block of the schema and holds that block's cells |
| StreamEncoder.AppendBlocks | pkg/api/aim/arrow.go:219-270 | the fixed, metric, param and tag blocks together append one full row |
| StreamEncoder.AppendRun | pkg/api/aim/arrow.go:219-270 | every column of the builder gains exactly the run's cell for it |
| StreamEncoder.StreamRun | pkg/api/aim/arrow.go:219-276 | the loop invariant is kept: the records written are those of the whole batches so far, and the builder holds the rest |
| StreamEncoder.FinishRecords | pkg/api/aim/arrow.go:279-283 | the final flush completes the records to exactly the encoding of all rows |
| StreamEncoder.EncodeRuns | pkg/api/aim/arrow.go:183-283 | the schema written is `Schema(keys, ex)` and the records written are `Export(runs, keys, ex)` |
| StreamEncoder.ExportShape | pkg/api/aim/arrow.go:272-283 | ceil(n / 1000) records, none for no runs; each record has one column per field, all of one length between 1 and 1000; every record but the last has 1000 rows |
| StreamEncoder.ExportCell | pkg/api/aim/arrow.go:272-276 | run `n` is at position `n % 1000` of record `n / 1000`, in every column |
| StreamEncoder.ExportRunOrder | pkg/api/aim/arrow.go:219-283 | the run-id column read across the records is the page's run ids in page order |
| StreamEncoder.ExportMetricCell | pkg/api/aim/arrow.go:228-243 | in the output, a metric cell is null iff the run lacks the key and NaN iff its last entry is flagged; otherwise it holds that entry's value |
| StreamEncoder.ExportTextCell | pkg/api/aim/arrow.go:246-269 | a string cell of the output is null iff the run lacks the key, and otherwise holds the key's last value |
| StreamEncoder.ExportParamCell | pkg/api/aim/arrow.go:246-257 | in the output, a param cell is null iff the run lacks the param, and otherwise holds its last value |
| StreamEncoder.ExportTagCell | pkg/api/aim/arrow.go:259-269 | in the output, a tag cell is null iff the run lacks the tag, and otherwise holds its last value |
| SearchRuns.ReportProgress | pkg/api/aim/arrow.go:52-54 | progress reporting is on when `report_progress` is absent or empty, and otherwise is the parsed value |
| SearchRuns.RowLimit | pkg/api/aim/arrow.go:98-100 | a limit is applied iff the requested limit is positive, and it is that limit |
| SearchRuns.OffsetBound | pkg/api/aim/arrow.go:102-115 | as written: an error iff there is an offset and its lookup fails; no bound iff there is no offset; the offset run's `row_num` when it exists; and 0 when the offset names no run |
| SearchRuns.IntendedOffsetBound | pkg/api/aim/arrow.go:102-115 | an error iff there is an offset and its lookup fails; no bound iff there is no offset or the offset names no run; otherwise the offset run's `row_num` |
| SearchRuns.PlanSearchRules | pkg/api/aim/arrow.go:32-115 | the plan as written: the namespace is checked before the offset, with the context error or the nil-namespace error; an offset lookup failure is an error; a limit applies iff positive; a `row_num` bound applies iff there is an offset, and it is the offset run's `row_num`, or 0 when the offset names no run; progress defaults to on when absent, else the parsed value; the exclusion flags pass through |
| SearchRuns.AsWrittenAgreesElsewhere | pkg/api/aim/arrow.go:102-115 | the plan as written and the corrected plan agree except for an offset that names no run; there the first bounds `row_num < 0` and the second not at all |
| SearchRuns.SelectSound | pkg/api/aim/arrow.go:87-127 | the selected runs are exactly the table's runs in the namespace, kept by the filter and below the bound, in table order, so descending order is kept |
| SearchRuns.SelectAll | pkg/api/aim/arrow.go:87-127 | when every run of the table is selected, the selection is the whole table, in order |
| SearchRuns.SelectNone | pkg/api/aim/arrow.go:87-127 | when no run of the table is selected, the selection is empty |
| SearchRuns.FetchProperties | pkg/api/aim/arrow.go:87-127 | every run of the page is in the namespace, kept by the filter and below the bound; the page is the first `min(limit, selected)` selected runs, in table order, or all of them without a limit; it is in `row_num` descending order |
| SearchRuns.OffsetPageFollows | pkg/api/aim/arrow.go:102-115 | every run of the page after an offset run has a lower `row_num` than the offset run |
| SearchRuns.MissingOffsetEmptiesPage | pkg/api/aim/arrow.go:102-115 | as written, an offset that names no run gives an empty page over non-negative row numbers; with the intended bound it plans like a request without offset |
| SearchRuns.FirstPageScenario | pkg/api/aim/arrow.go:96-127 | over three runs with limit 2 and no offset, the page is the two newest runs |
| SearchRuns.NextPageScenario | pkg/api/aim/arrow.go:96-127 | over the same runs, with the second run as offset, the page is the remaining run |
| SearchRuns.ExportPage | pkg/api/aim/arrow.go:127-283 | the schema written is the one for the page's discovered keys, and the records are the page's rows under it, in order, by 1000 |
| SearchRuns.SearchRunsArrow | pkg/api/aim/arrow.go:31-283 | with the offset bound as written: among the errors modelled, fails exactly when planning fails, with the same error; otherwise the schema and the records are those of the fetched page for its discovered keys |
| SearchRuns.SearchRunsArrowIntended | pkg/api/aim/arrow.go:31-283 | the same handler with the intended offset bound, for comparison |

## Left out

- Database access is a parameter. The run table is a sequence in `row_num` descending order, and the query filter is a predicate `keep`. The search query language, its parser errors and its timezone header are not modelled.
- The unused total count query and its error are not modelled.
- The errors of the fetch and of the three key queries are not modelled; the handler is modelled as if they succeed.
- The key queries select keys by `run_uuid IN run_ids` in the database. The model reads the same keys off the preloaded attribute lists of the page.
- Key order is lexicographic on code points. The database collation is not modelled.
- The Arrow IPC stream, the writer, memory pools, `WriteStreamingRecord` and its error, the content-type header and the log lines are not modelled. A record is its sequence of columns.
- Floating point is not modelled: a metric value is a `real`, and NaN is a separate cell value.
- `SearchRuns.SearchRunsArrow`: does not model the 422 answer when the query string cannot be decoded (arrow.go:48-50) or when the `x-timezone-offset` header is not an integer (arrow.go:56-59). The query is given already decoded, and the timezone only feeds the search query language, which is not modelled.
- `report_progress` is computed into the plan (`FetchPlan.reportProgress`), as the handler computes it, but the handler never uses it after that, so it does not appear in the output.
- The offset run is looked up without a namespace restriction, as in the source. Its lookup is a parameter of the handler.
- `skip_system` is parsed but unused by the handler, so it is not modelled.
- A nil namespace pointer in the context would make the handler dereference nil. The model returns a distinct `NilNamespace` error there.
- `NamespaceMiddleware.Handle`: the internal-error answer is written without an explicit status, so the framework's default status applies. The model records only which kind of answer is sent and its message.
- The repository's namespace cache, the request-context plumbing of the web framework, and `strings.Clone` are not modelled. The lookup is a function of the `no-cache` flag and the code.
- The regular expression engine is not modelled. `MatchNamespace` is the match of `^/ns/([^/]+)/` written out by hand.

## Findings

| source | as written | input that shows it | evidently intended | confidence | as-written member | corrected member |
|---|---|---|---|---|---|---|
| pkg/api/aim/arrow.go:102-115 | when the offset run does not exist, the not-found error is ignored and `row_num < 0` is applied with the zero row number of the fresh run record | any request whose `offset` names no run, over runs with non-negative `row_num`: the page is empty | an offset that names no run does not restrict the page (or is reported as an error) | medium, not executed | SearchRuns.MissingOffsetEmptiesPage | SearchRuns.IntendedOffsetBound |
