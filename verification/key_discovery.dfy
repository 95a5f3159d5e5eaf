/**
 * Key discovery for one page of runs: the distinct metric, param and tag keys
 * present on the runs of the page, each list in ascending key order, and empty
 * for a kind the caller excluded. These lists decide the export's columns.
 */
module KeyDiscovery {
  import opened Runs
  import opened KeyOrder
  import opened ArrowSchema
  import opened RowProjection

  /** The keys of one attribute list, in list order. */
  function EntryKeys(kvs: seq<KeyValue>): seq<string>
  {
    seq(|kvs|, i requires 0 <= i < |kvs| => kvs[i].key)
  }

  function MetricKeys(ms: seq<LatestMetric>): seq<string>
  {
    seq(|ms|, i requires 0 <= i < |ms| => ms[i].key)
  }

  /** Every metric key of every run of the page, with repetitions. */
  function PageMetricKeys(page: seq<Run>): seq<string>
  {
    if |page| == 0 then []
    else PageMetricKeys(page[..|page| - 1]) + MetricKeys(page[|page| - 1].latestMetrics)
  }

  /** Every key of every list, with repetitions. */
  function PageEntryKeys(lists: seq<seq<KeyValue>>): seq<string>
  {
    if |lists| == 0 then []
    else PageEntryKeys(lists[..|lists| - 1]) + EntryKeys(lists[|lists| - 1])
  }

  function ParamLists(page: seq<Run>): seq<seq<KeyValue>>
  {
    seq(|page|, n requires 0 <= n < |page| => page[n].params)
  }

  function TagLists(page: seq<Run>): seq<seq<KeyValue>>
  {
    seq(|page|, n requires 0 <= n < |page| => page[n].tags)
  }

  /** Some run of the page has a metric with key `k`. */
  predicate PageHasMetric(page: seq<Run>, k: string)
  {
    exists n :: 0 <= n < |page| && HasMetric(page[n].latestMetrics, k)
  }

  /** Some list has an entry with key `k`. */
  predicate ListsHaveEntry(lists: seq<seq<KeyValue>>, k: string)
  {
    exists n :: 0 <= n < |lists| && HasEntry(lists[n], k)
  }

  /** The gathered metric keys are exactly the keys some run of the page carries. */
  lemma {:induction false} PageMetricKeysMembership(page: seq<Run>, k: string)
    ensures k in PageMetricKeys(page) <==> PageHasMetric(page, k)
  {
    if |page| > 0 {
      var init, last := page[..|page| - 1], page[|page| - 1];
      PageMetricKeysMembership(init, k);
      assert k in MetricKeys(last.latestMetrics) <==> HasMetric(last.latestMetrics, k) by {
        if HasMetric(last.latestMetrics, k) {
          var i :| 0 <= i < |last.latestMetrics| && last.latestMetrics[i].key == k;
          assert MetricKeys(last.latestMetrics)[i] == k;
        }
      }
      if PageHasMetric(init, k) {
        var n :| 0 <= n < |init| && HasMetric(init[n].latestMetrics, k);
        assert page[n] == init[n];
      }
      if PageHasMetric(page, k) && !HasMetric(last.latestMetrics, k) {
        var n :| 0 <= n < |page| && HasMetric(page[n].latestMetrics, k);
        assert n < |init| && init[n] == page[n];
      }
    }
  }

  /** The gathered entry keys are exactly the keys some list carries. */
  lemma {:induction false} PageEntryKeysMembership(lists: seq<seq<KeyValue>>, k: string)
    ensures k in PageEntryKeys(lists) <==> ListsHaveEntry(lists, k)
  {
    if |lists| > 0 {
      var init, last := lists[..|lists| - 1], lists[|lists| - 1];
      PageEntryKeysMembership(init, k);
      assert k in EntryKeys(last) <==> HasEntry(last, k) by {
        if HasEntry(last, k) {
          var i :| 0 <= i < |last| && last[i].key == k;
          assert EntryKeys(last)[i] == k;
        }
      }
      if ListsHaveEntry(init, k) {
        var n :| 0 <= n < |init| && HasEntry(init[n], k);
        assert lists[n] == init[n];
      }
      if ListsHaveEntry(lists, k) && !HasEntry(last, k) {
        var n :| 0 <= n < |lists| && HasEntry(lists[n], k);
        assert n < |init| && init[n] == lists[n];
      }
    }
  }

  /**
   * The keys of a page: for each kind not excluded, its distinct keys in
   * ascending order; an excluded kind has no keys.
   */
  function DiscoverKeys(page: seq<Run>, ex: Exclusions): (keys: PageKeys)
    ensures StrictlySorted(keys.metrics) && StrictlySorted(keys.params) && StrictlySorted(keys.tags)
    ensures ex.excludeTraces ==> keys.metrics == []
    ensures ex.excludeParams ==> keys.params == [] && keys.tags == []
  {
    PageKeys(
      if ex.excludeTraces then [] else SortedDistinct(PageMetricKeys(page)),
      if ex.excludeParams then [] else SortedDistinct(PageEntryKeys(ParamLists(page))),
      if ex.excludeParams then [] else SortedDistinct(PageEntryKeys(TagLists(page))))
  }

  /**
   * For each kind not excluded, a key is discovered exactly when some run of
   * the page carries it.
   */
  lemma DiscoveredKeysPresent(page: seq<Run>, ex: Exclusions, k: string)
    ensures var keys := DiscoverKeys(page, ex);
      && (!ex.excludeTraces ==> (k in keys.metrics <==> PageHasMetric(page, k)))
      && (!ex.excludeParams ==>
            (k in keys.params <==> exists n :: 0 <= n < |page| && HasEntry(page[n].params, k)))
      && (!ex.excludeParams ==>
            (k in keys.tags <==> exists n :: 0 <= n < |page| && HasEntry(page[n].tags, k)))
  {
    PageMetricKeysMembership(page, k);
    PageEntryKeysMembership(ParamLists(page), k);
    PageEntryKeysMembership(TagLists(page), k);
    assert ListsHaveEntry(ParamLists(page), k) <==> exists n :: 0 <= n < |page| && HasEntry(page[n].params, k) by {
      if ListsHaveEntry(ParamLists(page), k) {
        var n :| 0 <= n < |page| && HasEntry(ParamLists(page)[n], k);
        assert HasEntry(page[n].params, k);
      }
      if exists n :: 0 <= n < |page| && HasEntry(page[n].params, k) {
        var n :| 0 <= n < |page| && HasEntry(page[n].params, k);
        assert HasEntry(ParamLists(page)[n], k);
      }
    }
    assert ListsHaveEntry(TagLists(page), k) <==> exists n :: 0 <= n < |page| && HasEntry(page[n].tags, k) by {
      if ListsHaveEntry(TagLists(page), k) {
        var n :| 0 <= n < |page| && HasEntry(TagLists(page)[n], k);
        assert HasEntry(page[n].tags, k);
      }
      if exists n :: 0 <= n < |page| && HasEntry(page[n].tags, k) {
        var n :| 0 <= n < |page| && HasEntry(page[n].tags, k);
        assert HasEntry(TagLists(page)[n], k);
      }
    }
  }

  /**
   * The key lists are determined by the page: any strictly ascending list of
   * exactly the metric keys present on the page is the discovered one (what a
   * distinct, key-ordered query returns).
   */
  lemma DiscoveredMetricKeysUnique(page: seq<Run>, ex: Exclusions, ks: seq<string>)
    requires !ex.excludeTraces && StrictlySorted(ks)
    requires forall k :: k in ks <==> PageHasMetric(page, k)
    ensures DiscoverKeys(page, ex).metrics == ks
  {
    forall k ensures k in DiscoverKeys(page, ex).metrics <==> k in ks {
      DiscoveredKeysPresent(page, ex, k);
    }
    SortedUnique(DiscoverKeys(page, ex).metrics, ks);
  }

  /** The schema built from discovered keys never repeats a column name. */
  lemma DiscoveredSchemaNamesDistinct(page: seq<Run>, ex: Exclusions)
    ensures var s := Schema(DiscoverKeys(page, ex), ex);
      forall i, j :: 0 <= i < j < |s| ==> s[i].name != s[j].name
  {
    SchemaNamesDistinct(DiscoverKeys(page, ex), ex);
  }

  /**
   * No attribute column of the export is entirely null: each discovered key
   * has a non-null cell in the row of some run of the page.
   */
  lemma DiscoveredColumnsUsed(page: seq<Run>, ex: Exclusions, j: int)
    requires var keys := DiscoverKeys(page, ex); MetricIndex <= j < |Schema(keys, ex)|
    ensures exists n :: 0 <= n < |page| && RowCells(page[n], DiscoverKeys(page, ex), ex)[j] != Null
  {
    var keys := DiscoverKeys(page, ex);
    SchemaLayout(keys, ex);
    var pi, ti := ParamIndex(keys, ex), TagIndex(keys, ex);
    if j < pi {
      var k := keys.metrics[j - MetricIndex];
      DiscoveredKeysPresent(page, ex, k);
      var n :| 0 <= n < |page| && HasMetric(page[n].latestMetrics, k);
      RowCellAt(page[n], keys, ex, j);
      MetricCellMeaning(page[n], k);
      assert RowCells(page[n], keys, ex)[j] != Null;
    } else if j < ti {
      var k := keys.params[j - pi];
      DiscoveredKeysPresent(page, ex, k);
      var n :| 0 <= n < |page| && HasEntry(page[n].params, k);
      RowCellAt(page[n], keys, ex, j);
      TextCellMeaning(page[n].params, k);
      assert RowCells(page[n], keys, ex)[j] != Null;
    } else {
      var k := keys.tags[j - ti];
      DiscoveredKeysPresent(page, ex, k);
      var n :| 0 <= n < |page| && HasEntry(page[n].tags, k);
      RowCellAt(page[n], keys, ex, j);
      TextCellMeaning(page[n].tags, k);
      assert RowCells(page[n], keys, ex)[j] != Null;
    }
  }
}
