/**
 * The run-table export request: the namespace taken from the request context,
 * the query-string rules for `limit`, `report_progress` and the `offset`
 * cursor, the page of runs the store returns for them, and the whole handler:
 * plan, fetch, discover keys, encode.
 */
module SearchRuns {
  import opened Wrappers
  import opened Runs
  import opened ArrowSchema
  import opened RowProjection
  import opened StreamEncoder
  import opened KeyDiscovery
  import opened NamespaceMiddleware

  /**
   * The decoded query string. `reportProgressRaw` is the raw `report_progress`
   * value ("" when absent), `reportProgress` the value the query parser decoded.
   */
  datatype SearchParams = SearchParams(
    query: string,
    limit: int,
    offset: string,
    reportProgressRaw: string,
    reportProgress: bool,
    excludeParams: bool,
    excludeTraces: bool)

  /** What the lookup of the offset run's `row_num` yields. */
  datatype OffsetLookup = OffsetRowNum(rowNum: int) | OffsetNotFound | OffsetLookupFailed(cause: string)

  datatype SearchError =
    | NamespaceError(message: string)
    | NilNamespace
    | OffsetError(offset: string, cause: string)

  /** The store query the handler builds: namespace, optional limit, optional `row_num` bound, preloads. */
  datatype FetchPlan = FetchPlan(
    namespaceId: nat,
    limit: Option<nat>,
    rowNumBelow: Option<int>,
    ex: Exclusions,
    reportProgress: bool)

  /** Progress reporting defaults to on when the parameter is absent or empty. */
  function ReportProgress(p: SearchParams): (r: bool)
    ensures p.reportProgressRaw == "" ==> r
    ensures p.reportProgressRaw != "" ==> r == p.reportProgress
  {
    if p.reportProgressRaw == "" then true else p.reportProgress
  }

  /** Only a positive limit restricts the page. */
  function RowLimit(limit: int): (r: Option<nat>)
    ensures r.Some? <==> limit > 0
    ensures r.Some? ==> r.value == limit
  {
    if limit > 0 then Some(limit) else None
  }

  /**
   * The `row_num` bound for an offset, as the handler computes it: none
   * without an offset; the offset run's `row_num` when found; an error when
   * the lookup fails; and, when the offset run does not exist, the zero value
   * the run record was created with.
   */
  function OffsetBound(offset: string, lookup: OffsetLookup): (r: Result<Option<int>, SearchError>)
    ensures r.Failure? <==> offset != "" && lookup.OffsetLookupFailed?
    ensures r == Success(None) <==> offset == ""
    ensures offset != "" && lookup.OffsetRowNum? ==> r == Success(Some(lookup.rowNum))
    ensures offset != "" && lookup.OffsetNotFound? ==> r == Success(Some(0))
  {
    if offset == "" then Success(None)
    else match lookup
      case OffsetRowNum(n) => Success(Some(n))
      case OffsetNotFound => Success(Some(0))
      case OffsetLookupFailed(cause) => Failure(OffsetError(offset, cause))
  }

  /** The bound evidently intended: an offset that names no run does not restrict the page. */
  function IntendedOffsetBound(offset: string, lookup: OffsetLookup): (r: Result<Option<int>, SearchError>)
    ensures r.Failure? <==> offset != "" && lookup.OffsetLookupFailed?
    ensures r == Success(None) <==> offset == "" || lookup.OffsetNotFound?
    ensures offset != "" && lookup.OffsetRowNum? ==> r == Success(Some(lookup.rowNum))
  {
    if offset == "" then Success(None)
    else match lookup
      case OffsetRowNum(n) => Success(Some(n))
      case OffsetNotFound => Success(None)
      case OffsetLookupFailed(cause) => Failure(OffsetError(offset, cause))
  }

  /** The namespace id from the context: an error without a namespace pointer, a distinct error for a nil one. */
  function ContextNamespace(v: ContextValue): Result<nat, SearchError>
  {
    match GetNamespaceFromContext(v)
    case Failure(_) => Failure(NamespaceError("error getting namespace from context"))
    case Success(None) => Failure(NilNamespace)
    case Success(Some(ns)) => Success(ns.id)
  }

  /**
   * Plans the store query. `bound` computes the offset bound (the handler's
   * or the intended one), so that both can be compared on the same request.
   */
  function Plan(v: ContextValue, p: SearchParams, bound: Result<Option<int>, SearchError>)
    : Result<FetchPlan, SearchError>
  {
    match ContextNamespace(v)
    case Failure(e) => Failure(e)
    case Success(id) =>
      match bound
      case Failure(e) => Failure(e)
      case Success(below) =>
        Success(FetchPlan(id, RowLimit(p.limit), below,
                          Exclusions(p.excludeParams, p.excludeTraces), ReportProgress(p)))
  }

  /** The plan exactly as the handler builds it, with the offset bound as written. */
  function PlanSearch(v: ContextValue, p: SearchParams, lookup: OffsetLookup): Result<FetchPlan, SearchError>
  {
    Plan(v, p, OffsetBound(p.offset, lookup))
  }

  /** The same plan with the intended offset bound. */
  function PlanSearchIntended(v: ContextValue, p: SearchParams, lookup: OffsetLookup): Result<FetchPlan, SearchError>
  {
    Plan(v, p, IntendedOffsetBound(p.offset, lookup))
  }

  /**
   * The request rules: the namespace is checked first, then the offset; the
   * limit applies only when positive; progress reporting defaults to on; the
   * exclusion flags pass through unchanged; any offset bounds `row_num`, by
   * the offset run's `row_num` when it exists and by 0 when it does not.
   */
  lemma PlanSearchRules(v: ContextValue, p: SearchParams, lookup: OffsetLookup)
    ensures var r := PlanSearch(v, p, lookup);
      && (!v.NamespacePointer? ==> r == Failure(NamespaceError("error getting namespace from context")))
      && (v == NamespacePointer(None) ==> r == Failure(NilNamespace))
      && (v.NamespacePointer? && v.pointer.Some? && p.offset != "" && lookup.OffsetLookupFailed? ==>
            r == Failure(OffsetError(p.offset, lookup.cause)))
      && (r.Success? ==>
            && v.NamespacePointer? && v.pointer.Some? && r.value.namespaceId == v.pointer.value.id
            && (r.value.limit.Some? <==> p.limit > 0)
            && (r.value.limit.Some? ==> r.value.limit.value == p.limit)
            && (r.value.rowNumBelow.None? <==> p.offset == "")
            && (lookup.OffsetRowNum? && p.offset != "" ==> r.value.rowNumBelow == Some(lookup.rowNum))
            && (lookup.OffsetNotFound? && p.offset != "" ==> r.value.rowNumBelow == Some(0))
            && (p.reportProgressRaw == "" ==> r.value.reportProgress)
            && (p.reportProgressRaw != "" ==> r.value.reportProgress == p.reportProgress)
            && r.value.ex == Exclusions(p.excludeParams, p.excludeTraces))
  {
  }

  /** The plan as written and the corrected one differ only for an offset that names no run. */
  lemma AsWrittenAgreesElsewhere(v: ContextValue, p: SearchParams, lookup: OffsetLookup)
    ensures !(p.offset != "" && lookup.OffsetNotFound?) ==> PlanSearch(v, p, lookup) == PlanSearchIntended(v, p, lookup)
    ensures p.offset != "" && lookup.OffsetNotFound? && ContextNamespace(v).Success? ==>
      && PlanSearch(v, p, lookup).Success? && PlanSearch(v, p, lookup).value.rowNumBelow == Some(0)
      && PlanSearchIntended(v, p, lookup).Success? && PlanSearchIntended(v, p, lookup).value.rowNumBelow == None
  {
  }

  /** A run the plan selects: in the namespace, kept by the query filter, below the bound. */
  predicate Selected(r: Run, plan: FetchPlan, keep: Run -> bool)
  {
    r.namespaceId == plan.namespaceId && keep(r)
    && (plan.rowNumBelow.None? || r.rowNum < plan.rowNumBelow.value)
  }

  /** The runs of `table` the plan selects, in table order. */
  function Select(table: seq<Run>, plan: FetchPlan, keep: Run -> bool): seq<Run>
  {
    if |table| == 0 then []
    else
      var last := table[|table| - 1];
      Select(table[..|table| - 1], plan, keep) + if Selected(last, plan, keep) then [last] else []
  }

  /**
   * The page the store returns: the selected runs of `table`, which holds
   * the runs in `row_num` descending order, cut to the limit.
   */
  function Fetch(table: seq<Run>, plan: FetchPlan, keep: Run -> bool): seq<Run>
  {
    var selected := Select(table, plan, keep);
    if plan.limit.Some? && plan.limit.value < |selected| then selected[..plan.limit.value] else selected
  }

  predicate Descending(rs: seq<Run>)
  {
    forall i, j :: 0 <= i < j < |rs| ==> rs[i].rowNum > rs[j].rowNum
  }

  /** Selection keeps exactly the selected runs of the table, in table order. */
  lemma {:induction false} SelectSound(table: seq<Run>, plan: FetchPlan, keep: Run -> bool)
    ensures var s := Select(table, plan, keep);
      && (forall i :: 0 <= i < |s| ==> Selected(s[i], plan, keep) && s[i] in table)
      && (forall r :: r in table && Selected(r, plan, keep) ==> r in s)
      && (Descending(table) ==> Descending(s))
  {
    if |table| > 0 {
      var init, last := table[..|table| - 1], table[|table| - 1];
      SelectSound(init, plan, keep);
      var s0 := Select(init, plan, keep);
      assert table == init + [last];
      if Descending(table) {
        assert Descending(init);
        forall i | 0 <= i < |s0| ensures s0[i].rowNum > last.rowNum {
          var m :| 0 <= m < |init| && init[m] == s0[i];
        }
      }
    }
  }

  /**
   * The page: every run is in the namespace, kept by the filter and below the
   * offset bound; the page respects the limit; it is in `row_num` descending
   * order; and without a limit, every selected run of the table is on it.
   */
  lemma FetchProperties(table: seq<Run>, plan: FetchPlan, keep: Run -> bool)
    ensures var page := Fetch(table, plan, keep);
      && (forall i :: 0 <= i < |page| ==> Selected(page[i], plan, keep) && page[i] in table)
      && (plan.limit.Some? ==> |page| <= plan.limit.value)
      && page == Select(table, plan, keep)[..|page|]
      && |page| == (if plan.limit.Some? && plan.limit.value < |Select(table, plan, keep)|
                    then plan.limit.value else |Select(table, plan, keep)|)
      && (Descending(table) ==> Descending(page))
      && (plan.limit.None? ==> forall r :: r in table && Selected(r, plan, keep) ==> r in page)
  {
    SelectSound(table, plan, keep);
    var page := Fetch(table, plan, keep);
    forall i | 0 <= i < |page| ensures Selected(page[i], plan, keep) && page[i] in table {
      assert page[i] == Select(table, plan, keep)[i];
    }
  }

  /** The page below an offset run continues a descending listing: every run on it comes after the offset run. */
  lemma OffsetPageFollows(table: seq<Run>, plan: FetchPlan, keep: Run -> bool, offsetRun: Run)
    requires plan.rowNumBelow == Some(offsetRun.rowNum)
    ensures forall r :: r in Fetch(table, plan, keep) ==> r.rowNum < offsetRun.rowNum
  {
    FetchProperties(table, plan, keep);
  }

  /**
   * The offset defect: as written, an offset naming no run bounds the page by
   * `row_num < 0`, so over runs with non-negative row numbers the page is
   * empty; with the intended bound the request plans exactly as if it had no offset.
   */
  lemma MissingOffsetEmptiesPage(v: ContextValue, p: SearchParams, table: seq<Run>, keep: Run -> bool)
    requires p.offset != ""
    requires PlanSearch(v, p, OffsetNotFound).Success?
    requires forall r :: r in table ==> r.rowNum >= 0
    ensures Fetch(table, PlanSearch(v, p, OffsetNotFound).value, keep) == []
    ensures PlanSearchIntended(v, p, OffsetNotFound) == PlanSearch(v, p.(offset := ""), OffsetNotFound)
  {
    var plan := PlanSearch(v, p, OffsetNotFound).value;
    assert plan.rowNumBelow == Some(0);
    SelectNone(table, plan, keep);
  }

  /** When the plan selects no run of the table, the selection is empty. */
  lemma {:induction false} SelectNone(table: seq<Run>, plan: FetchPlan, keep: Run -> bool)
    requires forall r :: r in table ==> !Selected(r, plan, keep)
    ensures Select(table, plan, keep) == []
  {
    if |table| > 0 {
      assert table[|table| - 1] in table;
      assert forall r :: r in table[..|table| - 1] ==> r in table;
      SelectNone(table[..|table| - 1], plan, keep);
    }
  }

  /** When the plan selects every run of the table, the selection is the whole table. */
  lemma {:induction false} SelectAll(table: seq<Run>, plan: FetchPlan, keep: Run -> bool)
    requires forall i :: 0 <= i < |table| ==> Selected(table[i], plan, keep)
    ensures Select(table, plan, keep) == table
  {
    if |table| > 0 {
      SelectAll(table[..|table| - 1], plan, keep);
      assert table == table[..|table| - 1] + [table[|table| - 1]];
    }
  }

  /** A run with the given id, namespace and row number, and no attributes. */
  function SampleRun(id: string, rowNum: int): Run
  {
    Run(id, id, "experiment", 1, rowNum, NullInt64(0, true), NullInt64(0, false), Active, Finished, [], [], [])
  }

  /** The query filter of a request with no query: every run passes. */
  predicate AnyRun(r: Run)
  {
    true
  }

  /** Three runs of namespace 1, newest first. */
  function SampleTable(): seq<Run>
  {
    [SampleRun("c", 30), SampleRun("b", 20), SampleRun("a", 10)]
  }

  /** A request for two runs at a time, without offset. */
  function FirstPageParams(): SearchParams
  {
    SearchParams("", 2, "", "", false, false, false)
  }

  /** Paging through three runs two at a time: the first page holds the two newest runs. */
  lemma FirstPageScenario()
    ensures var ns := NamespacePointer(Some(Namespace(1, "default")));
      && PlanSearch(ns, FirstPageParams(), OffsetNotFound).Success?
      && Fetch(SampleTable(), PlanSearch(ns, FirstPageParams(), OffsetNotFound).value, AnyRun) == SampleTable()[..2]
  {
    var table := SampleTable();
    var ns := NamespacePointer(Some(Namespace(1, "default")));
    assert ContextNamespace(ns) == Success(1);
    var p1 := FetchPlan(1, Some(2), None, Exclusions(false, false), true);
    assert PlanSearch(ns, FirstPageParams(), OffsetNotFound) == Success(p1);
    SelectAll(table, p1, AnyRun);
  }

  /** The page after the second run, named by the offset, holds the remaining one. */
  lemma NextPageScenario()
    ensures var ns := NamespacePointer(Some(Namespace(1, "default")));
      var second := FirstPageParams().(offset := "b");
      && PlanSearch(ns, second, OffsetRowNum(20)).Success?
      && Fetch(SampleTable(), PlanSearch(ns, second, OffsetRowNum(20)).value, AnyRun) == SampleTable()[2..]
  {
    var table := SampleTable();
    var ns := NamespacePointer(Some(Namespace(1, "default")));
    var second := FirstPageParams().(offset := "b");
    assert ContextNamespace(ns) == Success(1);
    var p2 := FetchPlan(1, Some(2), Some(20), Exclusions(false, false), true);
    assert PlanSearch(ns, second, OffsetRowNum(20)) == Success(p2);
    assert table[..2] == [table[0], table[1]];
    SelectNone(table[..2], p2, AnyRun);
    assert Select(table, p2, AnyRun) == [table[2]];
  }

  /** The response body: the schema and the record batches of the Arrow stream. */
  datatype ArrowExport = ArrowExport(schema: seq<Field>, records: seq<seq<seq<Cell>>>)

  /**
   * The handler: plans the query, fetches the page, discovers its keys and
   * encodes it. It fails exactly when planning fails, with the same error;
   * otherwise the schema and the records are those of the page for its keys.
   */
  method SearchRunsArrow(v: ContextValue, p: SearchParams, lookup: OffsetLookup, table: seq<Run>, keep: Run -> bool)
    returns (out: Result<ArrowExport, SearchError>)
    ensures var plan := PlanSearch(v, p, lookup);
      && (out.Failure? <==> plan.Failure?)
      && (out.Failure? ==> out.error == plan.error)
      && (out.Success? ==> out.value == PageExport(table, plan.value, keep))
  {
    var plan := PlanSearch(v, p, lookup);
    if plan.Failure? {
      return Failure(plan.error);
    }
    var body := ExportPage(table, plan.value, keep);
    return Success(body);
  }

  /** The handler with the intended offset bound, for comparison with the one as written. */
  method SearchRunsArrowIntended(v: ContextValue, p: SearchParams, lookup: OffsetLookup, table: seq<Run>, keep: Run -> bool)
    returns (out: Result<ArrowExport, SearchError>)
    ensures var plan := PlanSearchIntended(v, p, lookup);
      && (out.Failure? <==> plan.Failure?)
      && (out.Failure? ==> out.error == plan.error)
      && (out.Success? ==> out.value == PageExport(table, plan.value, keep))
  {
    var plan := PlanSearchIntended(v, p, lookup);
    if plan.Failure? {
      return Failure(plan.error);
    }
    var body := ExportPage(table, plan.value, keep);
    return Success(body);
  }

  /** What the stream carries for a plan: the fetched page, encoded under the page's own keys. */
  function PageExport(table: seq<Run>, plan: FetchPlan, keep: Run -> bool): ArrowExport
  {
    var page := Fetch(table, plan, keep);
    var keys := DiscoverKeys(page, plan.ex);
    ArrowExport(Schema(keys, plan.ex), Export(page, keys, plan.ex))
  }

  /**
   * Fetches the page, discovers its keys and encodes it: the schema has a
   * column per discovered key and the records hold the page's rows, in order,
   * by 1000.
   */
  method ExportPage(table: seq<Run>, plan: FetchPlan, keep: Run -> bool) returns (body: ArrowExport)
    ensures var page := Fetch(table, plan, keep);
      var keys := DiscoverKeys(page, plan.ex);
      && body.schema == Schema(keys, plan.ex)
      && body.records == Export(page, keys, plan.ex)
  {
    var page := Fetch(table, plan, keep);
    var keys := DiscoverKeys(page, plan.ex);
    var fields, records := EncodeRuns(page, keys, plan.ex);
    body := ArrowExport(fields, records);
  }
}
