/**
 * The run entity as the Arrow export reads it: identity, ordering position,
 * timing, lifecycle and execution state, and the three sparse attribute lists
 * (params, tags, latest metrics) that the store preloads for each run.
 */
module Runs {

  /** The lifecycle stage column of a run; only `Deleted` marks it archived. */
  datatype LifecycleStage = Active | Deleted

  /** The execution status of a run; only `Running` marks it active. */
  datatype RunStatus = Running | Scheduled | Finished | Failed | Killed

  /**
   * A nullable 64-bit integer as the database driver hands it over: when the
   * column is NULL, `valid` is false and `int64` holds the zero value.
   */
  datatype NullInt64 = NullInt64(int64: int, valid: bool)

  /** A param or a tag of a run. */
  datatype KeyValue = KeyValue(key: string, value: string)

  /**
   * The latest value logged for one metric key of a run; `isNan` marks a value
   * that is present but not a number (distinct from a missing metric).
   */
  datatype LatestMetric = LatestMetric(key: string, value: real, isNan: bool)

  /**
   * A run row with the joined experiment name and the namespace of its
   * experiment; `rowNum` is the monotonically assigned ordering position.
   */
  datatype Run = Run(
    id: string,
    name: string,
    experimentName: string,
    namespaceId: nat,
    rowNum: int,
    startTime: NullInt64,
    endTime: NullInt64,
    lifecycleStage: LifecycleStage,
    status: RunStatus,
    params: seq<KeyValue>,
    tags: seq<KeyValue>,
    latestMetrics: seq<LatestMetric>)
}
