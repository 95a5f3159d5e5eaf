/**
 * The streaming encoder of the run-table export: builds the schema, then for
 * each run appends one entry to every column and flushes a record after every
 * 1000th run, with a final flush of a non-empty remainder.
 */
module StreamEncoder {
  import opened Runs
  import opened ArrowSchema
  import opened RowProjection
  import opened Batching
  import opened RecordBuilding

  /** The dense rows of a page of runs, all as wide as the schema. */
  function Rows(runs: seq<Run>, keys: PageKeys, ex: Exclusions): (rows: seq<seq<Cell>>)
    ensures |rows| == |runs| && Rectangular(rows, |Schema(keys, ex)|)
    ensures forall r :: 0 <= r < |runs| ==> rows[r] == RowCells(runs[r], keys, ex)
  {
    seq(|runs|, r requires 0 <= r < |runs| => RowCells(runs[r], keys, ex))
  }

  /** The records the export writes for a page: the rows batched by 1000 and written by column. */
  function Export(runs: seq<Run>, keys: PageKeys, ex: Exclusions): seq<seq<seq<Cell>>>
  {
    Encoded(Rows(runs, keys, ex), |Schema(keys, ex)|)
  }

  /** Appends the row's cell to the next column `j`, the first `j` having theirs already. */
  method AppendCell(b: RecordBuilder, j: nat, c: Cell, ghost cols0: seq<seq<Cell>>, ghost row: seq<Cell>)
    requires b.Valid() && |row| == |cols0| == |b.schema| && j < |b.schema|
    requires row[j] == c && c != Null && Fits(c, b.schema[j].typ)
    requires b.columns == AppendRowUpTo(cols0, row, j)
    modifies b
    ensures b.Valid() && b.columns == AppendRowUpTo(cols0, row, j + 1)
  {
    b.Append(j, c);
    AppendRowStep(cols0, row, j);
  }

  /** Columns 0 to 6 of the schema and of the row are the fixed fields and the run's fixed cells. */
  ghost predicate FixedLayout(s: seq<Field>, row: seq<Cell>, r: Run)
  {
    && MetricIndex <= |s| && MetricIndex <= |row|
    && forall j :: 0 <= j < MetricIndex ==> s[j] == FixedFields[j] && row[j] == FixedCells(r)[j]
  }

  /** From `start`, one Float64 column per key of `ks`, holding the metric cell of `ms` for that key. */
  ghost predicate MetricLayout(s: seq<Field>, row: seq<Cell>, ms: seq<LatestMetric>, ks: seq<string>, start: nat)
  {
    && start + |ks| <= |s| && start + |ks| <= |row|
    && forall i :: 0 <= i < |ks| ==> s[start + i].typ == Float64 && row[start + i] == MetricCell(MetricMap(ms), ks[i])
  }

  /** From `start`, one string column per key of `ks`, holding the cell of `kvs` for that key. */
  ghost predicate TextLayout(s: seq<Field>, row: seq<Cell>, kvs: seq<KeyValue>, ks: seq<string>, start: nat)
  {
    && start + |ks| <= |s| && start + |ks| <= |row|
    && forall i :: 0 <= i < |ks| ==> s[start + i].typ == Utf8 && row[start + i] == TextCell(TextMap(kvs), ks[i])
  }

  /** Appends the seven fixed cells of a run to the fixed columns. */
  method AppendFixed(b: RecordBuilder, r: Run, ghost cols0: seq<seq<Cell>>, ghost row: seq<Cell>)
    requires b.Valid() && |row| == |cols0| == |b.schema| && FixedLayout(b.schema, row, r)
    requires b.columns == AppendRowUpTo(cols0, row, 0)
    modifies b
    ensures b.Valid() && b.columns == AppendRowUpTo(cols0, row, MetricIndex)
  {
    var cells := FixedCells(r);
    for j := 0 to MetricIndex
      invariant b.Valid() && b.columns == AppendRowUpTo(cols0, row, j)
    {
      AppendCell(b, j, cells[j], cols0, row);
    }
  }

  /** Appends, for each metric key in turn, the run's value, NaN, or null. */
  method AppendMetricBlock(b: RecordBuilder, ms: seq<LatestMetric>, ks: seq<string>, start: nat,
                           ghost cols0: seq<seq<Cell>>, ghost row: seq<Cell>)
    requires b.Valid() && |row| == |cols0| == |b.schema| && MetricLayout(b.schema, row, ms, ks, start)
    requires b.columns == AppendRowUpTo(cols0, row, start)
    modifies b
    ensures b.Valid() && b.columns == AppendRowUpTo(cols0, row, start + |ks|)
  {
    var metrics := CollectMetrics(ms);
    for i := 0 to |ks|
      invariant b.Valid() && b.columns == AppendRowUpTo(cols0, row, start + i)
    {
      var k := ks[i];
      if k in metrics {
        b.Append(i + start, metrics[k]);
      } else {
        b.AppendNull(i + start);
      }
      AppendRowStep(cols0, row, start + i);
    }
  }

  /** Appends, for each param (or tag) key in turn, the run's value or null. */
  method AppendTextBlock(b: RecordBuilder, kvs: seq<KeyValue>, ks: seq<string>, start: nat,
                         ghost cols0: seq<seq<Cell>>, ghost row: seq<Cell>)
    requires b.Valid() && |row| == |cols0| == |b.schema| && TextLayout(b.schema, row, kvs, ks, start)
    requires b.columns == AppendRowUpTo(cols0, row, start)
    modifies b
    ensures b.Valid() && b.columns == AppendRowUpTo(cols0, row, start + |ks|)
  {
    var values := CollectText(kvs);
    for i := 0 to |ks|
      invariant b.Valid() && b.columns == AppendRowUpTo(cols0, row, start + i)
    {
      var k := ks[i];
      if k in values {
        b.Append(i + start, Str(values[k]));
      } else {
        b.AppendNull(i + start);
      }
      AppendRowStep(cols0, row, start + i);
    }
  }

  /** The first of four concatenated blocks. */
  lemma FirstBlock<T>(a: seq<T>, b: seq<T>, c: seq<T>, d: seq<T>)
    ensures |a| <= |a + b + c + d|
    ensures forall i :: 0 <= i < |a| ==> (a + b + c + d)[i] == a[i]
  {
  }

  /** The second of four concatenated blocks starts after the first. */
  lemma SecondBlock<T>(a: seq<T>, b: seq<T>, c: seq<T>, d: seq<T>, start: nat)
    requires start == |a|
    ensures start + |b| <= |a + b + c + d|
    ensures forall i :: 0 <= i < |b| ==> (a + b + c + d)[start + i] == b[i]
  {
  }

  /** The third of four concatenated blocks starts after the first two. */
  lemma ThirdBlock<T>(a: seq<T>, b: seq<T>, c: seq<T>, d: seq<T>, start: nat)
    requires start == |a| + |b|
    ensures start + |c| <= |a + b + c + d|
    ensures forall i :: 0 <= i < |c| ==> (a + b + c + d)[start + i] == c[i]
  {
  }

  /** The last of four concatenated blocks starts after the first three. */
  lemma FourthBlock<T>(a: seq<T>, b: seq<T>, c: seq<T>, d: seq<T>, start: nat)
    requires start == |a| + |b| + |c|
    ensures start + |d| == |a + b + c + d|
    ensures forall i :: 0 <= i < |d| ==> (a + b + c + d)[start + i] == d[i]
  {
  }

  /** The fixed block of a row and of the schema. */
  lemma RowFixedBlock(r: Run, keys: PageKeys, ex: Exclusions)
    ensures FixedLayout(Schema(keys, ex), RowCells(r, keys, ex), r)
  {
    var metrics, params, tags := MetricColumns(keys, ex), ParamColumns(keys, ex), TagColumns(keys, ex);
    FirstBlock(FixedFields, KeyFields(MetricPrefix, metrics, Float64),
               KeyFields(ParamPrefix, params, Utf8), KeyFields(TagPrefix, tags, Utf8));
    FirstBlock(FixedCells(r), MetricCells(r, metrics), TextCells(r.params, params), TextCells(r.tags, tags));
  }

  /** The metric block of a row and of the schema. */
  lemma RowMetricBlock(r: Run, keys: PageKeys, ex: Exclusions)
    ensures MetricLayout(Schema(keys, ex), RowCells(r, keys, ex), r.latestMetrics, MetricColumns(keys, ex), MetricIndex)
  {
    var ks, params, tags := MetricColumns(keys, ex), ParamColumns(keys, ex), TagColumns(keys, ex);
    var row := RowCells(r, keys, ex);
    var cells := MetricCells(r, ks);
    SecondBlock(FixedFields, KeyFields(MetricPrefix, ks, Float64),
                KeyFields(ParamPrefix, params, Utf8), KeyFields(TagPrefix, tags, Utf8), MetricIndex);
    assert row == FixedCells(r) + cells + TextCells(r.params, params) + TextCells(r.tags, tags);
    SecondBlock(FixedCells(r), cells, TextCells(r.params, params), TextCells(r.tags, tags), MetricIndex);
    forall i | 0 <= i < |ks|
      ensures row[MetricIndex + i] == MetricCell(MetricMap(r.latestMetrics), ks[i])
    {
      assert row[MetricIndex + i] == cells[i];
    }
  }

  /** The param block of a row and of the schema. */
  lemma RowParamBlock(r: Run, keys: PageKeys, ex: Exclusions)
    ensures TextLayout(Schema(keys, ex), RowCells(r, keys, ex), r.params, ParamColumns(keys, ex), ParamIndex(keys, ex))
  {
    var metrics, ks, tags := MetricColumns(keys, ex), ParamColumns(keys, ex), TagColumns(keys, ex);
    var s, row, start := Schema(keys, ex), RowCells(r, keys, ex), ParamIndex(keys, ex);
    var cells := TextCells(r.params, ks);
    ThirdBlock(FixedFields, KeyFields(MetricPrefix, metrics, Float64),
               KeyFields(ParamPrefix, ks, Utf8), KeyFields(TagPrefix, tags, Utf8), start);
    assert row == FixedCells(r) + MetricCells(r, metrics) + cells + TextCells(r.tags, tags);
    ThirdBlock(FixedCells(r), MetricCells(r, metrics), cells, TextCells(r.tags, tags), start);
    forall i | 0 <= i < |ks|
      ensures row[start + i] == TextCell(TextMap(r.params), ks[i])
    {
      assert row[start + i] == cells[i];
    }
  }

  /** The tag block of a row and of the schema, which ends the row. */
  lemma RowTagBlock(r: Run, keys: PageKeys, ex: Exclusions)
    ensures TextLayout(Schema(keys, ex), RowCells(r, keys, ex), r.tags, TagColumns(keys, ex), TagIndex(keys, ex))
    ensures TagIndex(keys, ex) + |TagColumns(keys, ex)| == |RowCells(r, keys, ex)|
  {
    var metrics, params, ks := MetricColumns(keys, ex), ParamColumns(keys, ex), TagColumns(keys, ex);
    var row, start := RowCells(r, keys, ex), TagIndex(keys, ex);
    var cells := TextCells(r.tags, ks);
    FourthBlock(FixedFields, KeyFields(MetricPrefix, metrics, Float64),
                KeyFields(ParamPrefix, params, Utf8), KeyFields(TagPrefix, ks, Utf8), start);
    assert row == FixedCells(r) + MetricCells(r, metrics) + TextCells(r.params, params) + cells;
    FourthBlock(FixedCells(r), MetricCells(r, metrics), TextCells(r.params, params), cells, start);
    forall i | 0 <= i < |ks|
      ensures row[start + i] == TextCell(TextMap(r.tags), ks[i])
    {
      assert row[start + i] == cells[i];
    }
  }

  /** Where each block of a run's row sits in the schema, and what it holds. */
  ghost predicate RowLayout(s: seq<Field>, row: seq<Cell>, r: Run, keys: PageKeys, ex: Exclusions)
  {
    && |row| == |s| == TagIndex(keys, ex) + |TagColumns(keys, ex)|
    && FixedLayout(s, row, r)
    && MetricLayout(s, row, r.latestMetrics, MetricColumns(keys, ex), MetricIndex)
    && TextLayout(s, row, r.params, ParamColumns(keys, ex), ParamIndex(keys, ex))
    && TextLayout(s, row, r.tags, TagColumns(keys, ex), TagIndex(keys, ex))
  }

  lemma RowLayoutHolds(r: Run, keys: PageKeys, ex: Exclusions)
    ensures RowLayout(Schema(keys, ex), RowCells(r, keys, ex), r, keys, ex)
  {
    RowFixedBlock(r, keys, ex);
    RowMetricBlock(r, keys, ex);
    RowParamBlock(r, keys, ex);
    RowTagBlock(r, keys, ex);
  }

  /**
   * Appends a run's cells block by block: the fixed cells, then (unless
   * excluded) the metric, param and tag cells, each block from its own lookup map.
   */
  method AppendBlocks(b: RecordBuilder, r: Run, keys: PageKeys, ex: Exclusions,
                      metricIndex: nat, paramIndex: nat, tagIndex: nat,
                      ghost cols0: seq<seq<Cell>>, ghost row: seq<Cell>)
    requires b.Valid() && |row| == |cols0| && b.columns == AppendRowUpTo(cols0, row, 0)
    requires metricIndex == MetricIndex && paramIndex == ParamIndex(keys, ex) && tagIndex == TagIndex(keys, ex)
    requires RowLayout(b.schema, row, r, keys, ex)
    modifies b
    ensures b.Valid() && b.columns == AppendRowUpTo(cols0, row, |row|)
  {
    AppendFixed(b, r, cols0, row);
    if !ex.excludeTraces {
      AppendMetricBlock(b, r.latestMetrics, keys.metrics, metricIndex, cols0, row);
    }
    if !ex.excludeParams {
      AppendTextBlock(b, r.params, keys.params, paramIndex, cols0, row);
      AppendTextBlock(b, r.tags, keys.tags, tagIndex, cols0, row);
    }
  }

  /** Appends the projection of one run: one entry to every column of the builder. */
  method AppendRun(b: RecordBuilder, r: Run, keys: PageKeys, ex: Exclusions,
                   metricIndex: nat, paramIndex: nat, tagIndex: nat)
    requires b.Valid() && b.schema == Schema(keys, ex)
    requires metricIndex == MetricIndex
    requires paramIndex == ParamIndex(keys, ex) && tagIndex == TagIndex(keys, ex)
    modifies b
    ensures b.Valid()
    ensures b.columns == AppendRow(old(b.columns), RowCells(r, keys, ex))
  {
    ghost var cols0 := b.columns;
    ghost var row := RowCells(r, keys, ex);
    AppendRowDone(cols0, row);
    RowLayoutHolds(r, keys, ex);
    AppendBlocks(b, r, keys, ex, metricIndex, paramIndex, tagIndex, cols0, row);
  }

  /**
   * Encodes a page of runs: the schema for the discovered keys, and the records
   * flushed after every 1000th run plus a final record for a non-empty remainder.
   */
  method EncodeRuns(runs: seq<Run>, keys: PageKeys, ex: Exclusions)
    returns (fields: seq<Field>, records: seq<seq<seq<Cell>>>)
    ensures fields == Schema(keys, ex)
    ensures records == Export(runs, keys, ex)
  {
    var metricIndex, paramIndex, tagIndex;
    fields, metricIndex, paramIndex, tagIndex := BuildSchema(keys, ex);
    assert |fields| >= MetricIndex by { SchemaLayout(keys, ex); }
    var b := new RecordBuilder(fields);
    ghost var w := |fields|;
    ghost var rows := Rows(runs, keys, ex);
    TransposeEmpty(b.columns, w);
    records := [];
    for i := 0 to |runs|
      invariant b.Valid() && b.schema == fields
      invariant records == Encoded(rows[..i - i % BatchSize], w)
      invariant b.columns == Transpose(rows[i - i % BatchSize..i], w)
    {
      records := StreamRun(b, runs[i], keys, ex, metricIndex, paramIndex, tagIndex, records, rows, i);
    }
    records := FinishRecords(b, records, rows, w);
  }

  /**
   * One turn of the streaming loop: appends the projection of run `i` and,
   * when that completes a batch of 1000, flushes the batch as the next record.
   */
  method StreamRun(b: RecordBuilder, r: Run, keys: PageKeys, ex: Exclusions,
                   metricIndex: nat, paramIndex: nat, tagIndex: nat,
                   records: seq<seq<seq<Cell>>>, ghost rows: seq<seq<Cell>>, i: nat)
    returns (records': seq<seq<seq<Cell>>>)
    requires b.Valid() && b.schema == Schema(keys, ex)
    requires metricIndex == MetricIndex
    requires paramIndex == ParamIndex(keys, ex) && tagIndex == TagIndex(keys, ex)
    requires Rectangular(rows, |b.schema|) && i < |rows| && rows[i] == RowCells(r, keys, ex)
    requires records == Encoded(rows[..i - i % BatchSize], |b.schema|)
    requires b.columns == Transpose(rows[i - i % BatchSize..i], |b.schema|)
    modifies b
    ensures b.Valid()
    ensures records' == Encoded(rows[..(i + 1) - (i + 1) % BatchSize], |b.schema|)
    ensures b.columns == Transpose(rows[(i + 1) - (i + 1) % BatchSize..i + 1], |b.schema|)
  {
    ghost var w := |b.schema|;
    AppendRun(b, r, keys, ex, metricIndex, paramIndex, tagIndex);
    StreamStep(rows, w, i);
    records' := records;
    if (i + 1) % BatchSize == 0 {
      var record := b.NewRecord();
      records' := records + [record];
      TransposeEmpty(b.columns, w);
    }
  }

  /** After the last run, a non-empty pending batch becomes the final record. */
  method FinishRecords(b: RecordBuilder, records: seq<seq<seq<Cell>>>, ghost rows: seq<seq<Cell>>, ghost w: nat)
    returns (all: seq<seq<seq<Cell>>>)
    requires b.Valid() && |b.schema| == w && w > 0 && Rectangular(rows, w)
    requires records == Encoded(rows[..|rows| - |rows| % BatchSize], w)
    requires b.columns == Transpose(rows[|rows| - |rows| % BatchSize..|rows|], w)
    modifies b
    ensures all == Encoded(rows, w)
  {
    StreamEnd(rows, w);
    ghost var done := |rows| - |rows| % BatchSize;
    assert rows[done..|rows|] == rows[done..];
    var pending := b.Len(0);
    assert pending == |rows| - done;
    all := records;
    if pending > 0 {
      var record := b.NewRecord();
      all := all + [record];
    }
  }

  /**
   * The shape of the output: ceil(n / 1000) records for n runs (so none for no
   * runs), each with one column per schema field, every column of a record
   * equally long, that length between 1 and 1000, and 1000 in all but the last.
   */
  lemma ExportShape(runs: seq<Run>, keys: PageKeys, ex: Exclusions)
    ensures var recs, w := Export(runs, keys, ex), |Schema(keys, ex)|;
      && |recs| == (|runs| + BatchSize - 1) / BatchSize
      && (forall k :: 0 <= k < |recs| ==>
            && |recs[k]| == w
            && forall j :: 0 <= j < w ==> |recs[k][j]| == |recs[k][0]| && 0 < |recs[k][j]| <= BatchSize)
      && (forall k :: 0 <= k < |recs| - 1 ==> forall j :: 0 <= j < w ==> |recs[k][j]| == BatchSize)
  {
    var rows, w := Rows(runs, keys, ex), |Schema(keys, ex)|;
    assert w >= MetricIndex by { SchemaLayout(keys, ex); }
    RecordShape(rows, w);
    ChunksSizes(rows);
  }

  /** Row `n` of the page sits in record `n / 1000` at position `n % 1000`, in every column. */
  lemma ExportCell(runs: seq<Run>, keys: PageKeys, ex: Exclusions, n: nat, j: nat)
    requires n < |runs| && j < |Schema(keys, ex)|
    ensures var recs := Export(runs, keys, ex);
      && n / BatchSize < |recs| && j < |recs[n / BatchSize]| && n % BatchSize < |recs[n / BatchSize][j]|
      && recs[n / BatchSize][j][n % BatchSize] == RowCells(runs[n], keys, ex)[j]
  {
    var rows, w := Rows(runs, keys, ex), |Schema(keys, ex)|;
    ChunkOfRow(rows, n);
    RecordShape(rows, w);
  }

  /**
   * Reading the run-id column across the records in the order they are
   * written gives the ids of the page's runs, in input order.
   */
  lemma ExportRunOrder(runs: seq<Run>, keys: PageKeys, ex: Exclusions)
    ensures forall k :: 0 <= k < |Export(runs, keys, ex)| ==> 0 < |Export(runs, keys, ex)[k]|
    ensures StreamColumn(Export(runs, keys, ex), 0) == seq(|runs|, n requires 0 <= n < |runs| => Str(runs[n].id))
  {
    var rows, w := Rows(runs, keys, ex), |Schema(keys, ex)|;
    assert w >= MetricIndex by { SchemaLayout(keys, ex); }
    RecordShape(rows, w);
    StreamColumnInOrder(rows, w, 0);
    forall n | 0 <= n < |runs| ensures rows[n][0] == Str(runs[n].id) {
      FixedCellsMeaning(runs[n], keys, ex);
    }
  }

  /**
   * Null versus NaN in the output: in the column of metric key `ks[i]`, the
   * cell of run `n` is null exactly when that run has no such metric, and NaN
   * exactly when its last entry for the key is flagged not-a-number.
   */
  lemma ExportMetricCell(runs: seq<Run>, keys: PageKeys, ex: Exclusions, n: nat, i: nat)
    requires n < |runs| && !ex.excludeTraces && i < |keys.metrics|
    ensures var recs, ms := Export(runs, keys, ex), runs[n].latestMetrics;
      && n / BatchSize < |recs| && MetricIndex + i < |recs[n / BatchSize]|
      && n % BatchSize < |recs[n / BatchSize][MetricIndex + i]|
      && var c := recs[n / BatchSize][MetricIndex + i][n % BatchSize];
      && (c == Null <==> !HasMetric(ms, keys.metrics[i]))
      && forall l :: IsLastMetric(ms, keys.metrics[i], l) ==>
           (c == NaN <==> ms[l].isNan) && (!ms[l].isNan ==> c == Float(ms[l].value))
  {
    SchemaLayout(keys, ex);
    ExportCell(runs, keys, ex, n, MetricIndex + i);
    RowCellAt(runs[n], keys, ex, MetricIndex + i);
    MetricCellMeaning(runs[n], keys.metrics[i]);
  }

  /** A string cell of the export: null exactly without the key, otherwise the key's last value. */
  lemma ExportTextCell(runs: seq<Run>, keys: PageKeys, ex: Exclusions, n: nat, j: nat, kvs: seq<KeyValue>, k: string)
    requires n < |runs| && j < |Schema(keys, ex)|
    requires RowCells(runs[n], keys, ex)[j] == TextCell(TextMap(kvs), k)
    ensures var recs := Export(runs, keys, ex);
      && n / BatchSize < |recs| && j < |recs[n / BatchSize]| && n % BatchSize < |recs[n / BatchSize][j]|
      && var c := recs[n / BatchSize][j][n % BatchSize];
      && (c == Null <==> !HasEntry(kvs, k))
      && forall l :: IsLastEntry(kvs, k, l) ==> c == Str(kvs[l].value)
  {
    ExportCell(runs, keys, ex, n, j);
    TextCellMeaning(kvs, k);
  }

  /**
   * In the column of param key `ks[i]`, the cell of run `n` is null exactly
   * when that run has no such param, and otherwise its last value for the key.
   */
  lemma ExportParamCell(runs: seq<Run>, keys: PageKeys, ex: Exclusions, n: nat, i: nat)
    requires n < |runs| && !ex.excludeParams && i < |keys.params|
    ensures var recs, ps, j := Export(runs, keys, ex), runs[n].params, ParamIndex(keys, ex) + i;
      && n / BatchSize < |recs| && j < |recs[n / BatchSize]| && n % BatchSize < |recs[n / BatchSize][j]|
      && var c := recs[n / BatchSize][j][n % BatchSize];
      && (c == Null <==> !HasEntry(ps, keys.params[i]))
      && forall l :: IsLastEntry(ps, keys.params[i], l) ==> c == Str(ps[l].value)
  {
    var j := ParamIndex(keys, ex) + i;
    assert ParamColumns(keys, ex) == keys.params;
    assert j < |Schema(keys, ex)| && ParamIndex(keys, ex) <= j && j < TagIndex(keys, ex) by { SchemaLayout(keys, ex); }
    RowCellAt(runs[n], keys, ex, j);
    ExportTextCell(runs, keys, ex, n, j, runs[n].params, keys.params[i]);
  }

  /**
   * In the column of tag key `ks[i]`, the cell of run `n` is null exactly
   * when that run has no such tag, and otherwise its last value for the key.
   */
  lemma ExportTagCell(runs: seq<Run>, keys: PageKeys, ex: Exclusions, n: nat, i: nat)
    requires n < |runs| && !ex.excludeParams && i < |keys.tags|
    ensures var recs, ts, j := Export(runs, keys, ex), runs[n].tags, TagIndex(keys, ex) + i;
      && n / BatchSize < |recs| && j < |recs[n / BatchSize]| && n % BatchSize < |recs[n / BatchSize][j]|
      && var c := recs[n / BatchSize][j][n % BatchSize];
      && (c == Null <==> !HasEntry(ts, keys.tags[i]))
      && forall l :: IsLastEntry(ts, keys.tags[i], l) ==> c == Str(ts[l].value)
  {
    var j := TagIndex(keys, ex) + i;
    assert TagColumns(keys, ex) == keys.tags;
    assert j < |Schema(keys, ex)| && TagIndex(keys, ex) <= j && TagIndex(keys, ex) <= j by { SchemaLayout(keys, ex); }
    RowCellAt(runs[n], keys, ex, j);
    ExportTextCell(runs, keys, ex, n, j, runs[n].tags, keys.tags[i]);
  }
}
