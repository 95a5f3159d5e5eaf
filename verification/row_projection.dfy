/**
 * Projection of one run onto the dense schema: the seven fixed cells, then
 * for every discovered key the run's value, a NaN marker for a metric flagged
 * not-a-number, or an explicit null when the run has no entry for the key.
 */
module RowProjection {
  import opened Runs
  import opened ArrowSchema

  /** One cell of a column: null, or a value of the column's type. NaN is a present float. */
  datatype Cell = Null | Str(s: string) | Timestamp(ms: int) | Bool(b: bool) | Float(x: real) | NaN

  /** A non-null cell may only go into a column of its own type. */
  predicate Fits(c: Cell, t: ColumnType)
  {
    match c
    case Null => true
    case Str(_) => t == Utf8
    case Timestamp(_) => t == TimestampMs
    case Bool(_) => t == Boolean
    case Float(_) => t == Float64
    case NaN => t == Float64
  }

  /** The float a latest metric contributes: NaN when it is flagged not-a-number. */
  function MetricValue(m: LatestMetric): Cell
  {
    if m.isNan then NaN else Float(m.value)
  }

  /** The per-row metric map: each entry overwrites an earlier one with the same key. */
  function MetricMap(ms: seq<LatestMetric>): (m: map<string, Cell>)
    ensures forall k :: k in m ==> m[k] != Null && Fits(m[k], Float64)
    decreases |ms|
  {
    if |ms| == 0 then map[]
    else MetricMap(ms[..|ms| - 1])[ms[|ms| - 1].key := MetricValue(ms[|ms| - 1])]
  }

  /** The per-row param (or tag) map: each entry overwrites an earlier one with the same key. */
  function TextMap(kvs: seq<KeyValue>): map<string, string>
    decreases |kvs|
  {
    if |kvs| == 0 then map[]
    else TextMap(kvs[..|kvs| - 1])[kvs[|kvs| - 1].key := kvs[|kvs| - 1].value]
  }

  /** Entry `i` is the last entry of `ms` with key `k`. */
  predicate IsLastMetric(ms: seq<LatestMetric>, k: string, i: int)
  {
    0 <= i < |ms| && ms[i].key == k && forall j :: i < j < |ms| ==> ms[j].key != k
  }

  /** Entry `i` is the last entry of `kvs` with key `k`. */
  predicate IsLastEntry(kvs: seq<KeyValue>, k: string, i: int)
  {
    0 <= i < |kvs| && kvs[i].key == k && forall j :: i < j < |kvs| ==> kvs[j].key != k
  }

  predicate HasMetric(ms: seq<LatestMetric>, k: string)
  {
    exists i :: 0 <= i < |ms| && ms[i].key == k
  }

  predicate HasEntry(kvs: seq<KeyValue>, k: string)
  {
    exists i :: 0 <= i < |kvs| && kvs[i].key == k
  }

  /** A key is in the metric map iff some entry has it, and then the last such entry wins. */
  lemma {:induction false} MetricMapLastWins(ms: seq<LatestMetric>, k: string)
    ensures k in MetricMap(ms) <==> HasMetric(ms, k)
    ensures forall i :: IsLastMetric(ms, k, i) ==> k in MetricMap(ms) && MetricMap(ms)[k] == MetricValue(ms[i])
    decreases |ms|
  {
    if |ms| > 0 {
      var init := ms[..|ms| - 1];
      MetricMapLastWins(init, k);
      assert HasMetric(ms, k) <==> HasMetric(init, k) || ms[|ms| - 1].key == k by {
        if HasMetric(init, k) {
          var i :| 0 <= i < |init| && init[i].key == k;
          assert ms[i].key == k;
        }
        if HasMetric(ms, k) && ms[|ms| - 1].key != k {
          var i :| 0 <= i < |ms| && ms[i].key == k;
          assert init[i].key == k;
        }
      }
      forall i | IsLastMetric(ms, k, i) ensures MetricMap(ms)[k] == MetricValue(ms[i]) {
        if i < |ms| - 1 {
          assert IsLastMetric(init, k, i);
        }
      }
    }
  }

  /** A key is in the param/tag map iff some entry has it, and then the last such entry wins. */
  lemma {:induction false} TextMapLastWins(kvs: seq<KeyValue>, k: string)
    ensures k in TextMap(kvs) <==> HasEntry(kvs, k)
    ensures forall i :: IsLastEntry(kvs, k, i) ==> k in TextMap(kvs) && TextMap(kvs)[k] == kvs[i].value
    decreases |kvs|
  {
    if |kvs| > 0 {
      var init := kvs[..|kvs| - 1];
      TextMapLastWins(init, k);
      assert HasEntry(kvs, k) <==> HasEntry(init, k) || kvs[|kvs| - 1].key == k by {
        if HasEntry(init, k) {
          var i :| 0 <= i < |init| && init[i].key == k;
          assert kvs[i].key == k;
        }
        if HasEntry(kvs, k) && kvs[|kvs| - 1].key != k {
          var i :| 0 <= i < |kvs| && kvs[i].key == k;
          assert init[i].key == k;
        }
      }
      forall i | IsLastEntry(kvs, k, i) ensures TextMap(kvs)[k] == kvs[i].value {
        if i < |kvs| - 1 {
          assert IsLastEntry(init, k, i);
        }
      }
    }
  }

  /** A key that occurs has a last occurrence. */
  lemma LastMetricExists(ms: seq<LatestMetric>, k: string) returns (i: int)
    requires HasMetric(ms, k)
    ensures IsLastMetric(ms, k, i)
  {
    var j :| 0 <= j < |ms| && ms[j].key == k;
    i := j;
    while i + 1 < |ms| && exists l :: i < l < |ms| && ms[l].key == k
      invariant 0 <= i < |ms| && ms[i].key == k
      decreases |ms| - i
    {
      var l :| i < l < |ms| && ms[l].key == k;
      i := l;
    }
  }

  /** Builds the per-row metric map with a loop over the run's latest metrics. */
  method CollectMetrics(ms: seq<LatestMetric>) returns (m: map<string, Cell>)
    ensures m == MetricMap(ms)
  {
    m := map[];
    for i := 0 to |ms|
      invariant m == MetricMap(ms[..i])
    {
      assert ms[..i + 1][..i] == ms[..i];
      var v := if ms[i].isNan then NaN else Float(ms[i].value);
      m := m[ms[i].key := v];
    }
    assert ms[..|ms|] == ms;
  }

  /** Builds the per-row param (or tag) map with a loop over the run's entries. */
  method CollectText(kvs: seq<KeyValue>) returns (m: map<string, string>)
    ensures m == TextMap(kvs)
  {
    m := map[];
    for i := 0 to |kvs|
      invariant m == TextMap(kvs[..i])
    {
      assert kvs[..i + 1][..i] == kvs[..i];
      m := m[kvs[i].key := kvs[i].value];
    }
    assert kvs[..|kvs|] == kvs;
  }

  /** The cell of a metric column: the mapped value, or null for a missing key. */
  function MetricCell(m: map<string, Cell>, k: string): Cell
  {
    if k in m then m[k] else Null
  }

  /** The cell of a param or tag column: the mapped string, or null for a missing key. */
  function TextCell(m: map<string, string>, k: string): Cell
  {
    if k in m then Str(m[k]) else Null
  }

  /** The fixed cells of a run, in the order of the fixed fields. */
  function FixedCells(r: Run): seq<Cell>
  {
    [ Str(r.id), Str(r.name), Str(r.experimentName),
      Timestamp(r.startTime.int64), Timestamp(r.endTime.int64),
      Bool(r.lifecycleStage == Deleted), Bool(r.status == Running) ]
  }

  function MetricCells(r: Run, ks: seq<string>): seq<Cell>
  {
    var m := MetricMap(r.latestMetrics);
    seq(|ks|, i requires 0 <= i < |ks| => MetricCell(m, ks[i]))
  }

  function TextCells(kvs: seq<KeyValue>, ks: seq<string>): seq<Cell>
  {
    var m := TextMap(kvs);
    seq(|ks|, i requires 0 <= i < |ks| => TextCell(m, ks[i]))
  }

  /** The dense row of a run under the schema for `keys` and `ex`. */
  function RowCells(r: Run, keys: PageKeys, ex: Exclusions): (row: seq<Cell>)
    ensures |row| == |Schema(keys, ex)| >= MetricIndex
  {
    SchemaLayout(keys, ex);
    FixedCells(r)
      + MetricCells(r, MetricColumns(keys, ex))
      + TextCells(r.params, ParamColumns(keys, ex))
      + TextCells(r.tags, TagColumns(keys, ex))
  }

  /** The cell of column `j` of a run's row, by block of the schema. */
  lemma RowCellAt(r: Run, keys: PageKeys, ex: Exclusions, j: int)
    requires 0 <= j < |Schema(keys, ex)|
    ensures j < MetricIndex ==> RowCells(r, keys, ex)[j] == FixedCells(r)[j]
    ensures MetricIndex <= j < ParamIndex(keys, ex) ==>
      RowCells(r, keys, ex)[j] == MetricCell(MetricMap(r.latestMetrics), MetricColumns(keys, ex)[j - MetricIndex])
    ensures ParamIndex(keys, ex) <= j < TagIndex(keys, ex) ==>
      RowCells(r, keys, ex)[j] == TextCell(TextMap(r.params), ParamColumns(keys, ex)[j - ParamIndex(keys, ex)])
    ensures TagIndex(keys, ex) <= j ==>
      RowCells(r, keys, ex)[j] == TextCell(TextMap(r.tags), TagColumns(keys, ex)[j - TagIndex(keys, ex)])
  {
    var a := FixedCells(r);
    var b := MetricCells(r, MetricColumns(keys, ex));
    var c := TextCells(r.params, ParamColumns(keys, ex));
    var d := TextCells(r.tags, TagColumns(keys, ex));
    assert RowCells(r, keys, ex) == a + b + c + d;
    var pi, ti := ParamIndex(keys, ex), TagIndex(keys, ex);
    if j < MetricIndex {
      assert (a + b + c + d)[j] == a[j];
    } else if j < pi {
      assert (a + b + c + d)[j] == b[j - MetricIndex];
    } else if j < ti {
      assert (a + b + c + d)[j] == c[j - pi];
    } else {
      assert (a + b + c + d)[j] == d[j - ti];
    }
  }

  /** The cell of column `j` fits the column's type. */
  lemma CellFits(r: Run, keys: PageKeys, ex: Exclusions, j: int)
    requires 0 <= j < |Schema(keys, ex)|
    ensures Fits(RowCells(r, keys, ex)[j], Schema(keys, ex)[j].typ)
  {
    SchemaTypeAt(keys, ex, j);
    RowCellAt(r, keys, ex, j);
    var c := RowCells(r, keys, ex)[j];
    if j < MetricIndex {
      FixedCellsFit(r, j);
    } else if j < ParamIndex(keys, ex) {
      MetricCellFits(r.latestMetrics, MetricColumns(keys, ex)[j - MetricIndex]);
    }
    assert Fits(c, Schema(keys, ex)[j].typ);
  }

  lemma FixedCellsFit(r: Run, j: int)
    requires 0 <= j < MetricIndex
    ensures Fits(FixedCells(r)[j], FixedFields[j].typ)
  {
  }

  lemma MetricCellFits(ms: seq<LatestMetric>, k: string)
    ensures Fits(MetricCell(MetricMap(ms), k), Float64)
  {
  }

  /** Every cell of a row fits the type of its column: the row conforms to the schema. */
  lemma RowFitsSchema(r: Run, keys: PageKeys, ex: Exclusions)
    ensures forall j :: 0 <= j < |Schema(keys, ex)| ==>
      Fits(RowCells(r, keys, ex)[j], Schema(keys, ex)[j].typ)
  {
    forall j | 0 <= j < |Schema(keys, ex)| ensures Fits(RowCells(r, keys, ex)[j], Schema(keys, ex)[j].typ) {
      CellFits(r, keys, ex, j);
    }
  }

  /**
   * The fixed cells: archived is true iff the run is deleted, active is true
   * iff it is running, and both timestamps are present values taken from the
   * stored integer even when the column was NULL.
   */
  lemma FixedCellsMeaning(r: Run, keys: PageKeys, ex: Exclusions)
    ensures var row := RowCells(r, keys, ex);
      && row[0] == Str(r.id) && row[1] == Str(r.name) && row[2] == Str(r.experimentName)
      && row[3] != Null && row[3].ms == r.startTime.int64
      && row[4] != Null && row[4].ms == r.endTime.int64
      && (row[5] == Bool(true) <==> r.lifecycleStage == Deleted)
      && (row[6] == Bool(true) <==> r.status == Running)
  {
    assert |Schema(keys, ex)| >= 7 by { SchemaLayout(keys, ex); }
    for j := 0 to 7
      invariant forall l :: 0 <= l < j ==> RowCells(r, keys, ex)[l] == FixedCells(r)[l]
    {
      RowCellAt(r, keys, ex, j);
    }
  }

  /**
   * Null versus NaN in a metric column: the cell is null exactly when the run
   * has no metric with that key; otherwise it is NaN exactly when the run's
   * last entry for the key is flagged not-a-number, and that entry's value if not.
   */
  lemma {:induction false} MetricCellMeaning(r: Run, k: string)
    ensures var c := MetricCell(MetricMap(r.latestMetrics), k);
      && (c == Null <==> !HasMetric(r.latestMetrics, k))
      && forall i :: IsLastMetric(r.latestMetrics, k, i) ==>
           (c == NaN <==> r.latestMetrics[i].isNan)
           && (!r.latestMetrics[i].isNan ==> c == Float(r.latestMetrics[i].value))
  {
    MetricMapLastWins(r.latestMetrics, k);
  }

  /**
   * A param or tag column holds the run's last value for the key, and null
   * exactly when the run has no entry with that key.
   */
  lemma {:induction false} TextCellMeaning(kvs: seq<KeyValue>, k: string)
    ensures var c := TextCell(TextMap(kvs), k);
      && (c == Null <==> !HasEntry(kvs, k))
      && forall i :: IsLastEntry(kvs, k, i) ==> c == Str(kvs[i].value)
  {
    TextMapLastWins(kvs, k);
  }
}
