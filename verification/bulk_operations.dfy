/**
 * BulkOperationsDomain (src/domains/bulkOperations.domain.ts): progress
 * bookkeeping for a batch job over many entities. Counters are integers,
 * percentages are reals; a JavaScript NaN or Infinity (a progress over zero
 * items) is None. `id` stands for crypto.randomUUID(), `now` for new Date();
 * the `data`, `filters` and per-error `item` payloads are not modelled.
 */
module BulkOperations {
  import opened Wrappers

  datatype OperationType = BulkCreate | BulkUpdate | BulkDelete | BulkExport | BulkImport
  datatype EntityType = UserEntity | RoleEntity | ApiKeyEntity | AuditLogEntity
  datatype Status = Pending | Processing | Completed | Failed | Cancelled
  datatype ItemError = ItemError(index: int, error: string)

  datatype Operation = Operation(
    id: string, operationType: OperationType, entityType: EntityType, status: Status,
    totalItems: int, processedItems: int, failedItems: int, successItems: int,
    errors: Option<seq<ItemError>>, filePath: Option<string>, createdAt: int,
    startedAt: Option<int>, completedAt: Option<int>, estimatedCompletion: Option<int>,
    progressPercentage: Option<real>)

  /** The constructor: pending, nothing processed, no progress. */
  function NewOperation(id: string, operationType: OperationType, entityType: EntityType, totalItems: int, now: int): (op: Operation)
    ensures op.status == Pending && op.totalItems == totalItems
    ensures op.processedItems == 0 && op.failedItems == 0 && op.successItems == 0
    ensures op.progressPercentage == Some(0.0) && op.errors.None?
    ensures op.startedAt.None? && op.completedAt.None? && op.estimatedCompletion.None?
    ensures op.createdAt == now
  {
    Operation(id, operationType, entityType, Pending, totalItems, 0, 0, 0, None, None, now, None, None, None, Some(0.0))
  }

  /** ECMAScript TimeClip's ToIntegerOrInfinity: a real truncated toward zero. */
  function Truncate(x: real): (n: int)
    ensures x >= 0.0 ==> n as real <= x < n as real + 1.0
    ensures x < 0.0 ==> n as real - 1.0 < x <= n as real
  {
    if x >= 0.0 then x.Floor else -((-x).Floor)
  }

  /**
   * calculateEstimatedCompletion: with a start time and something processed,
   * now plus the remaining items at the average time per item so far.
   */
  function EstimateCompletion(op: Operation, now: int): (op': Operation)
    ensures op'.(estimatedCompletion := op.estimatedCompletion) == op
    ensures op.startedAt.None? || op.processedItems == 0 ==> op' == op
    ensures op.startedAt.Some? && op.processedItems != 0 ==> op'.estimatedCompletion.Some?
  {
    if op.startedAt.None? || op.processedItems == 0 then op
    else
      var elapsed := (now - op.startedAt.value) as real;
      var perItem := elapsed / op.processedItems as real;
      var remaining := (op.totalItems - op.processedItems) as real;
      op.(estimatedCompletion := Some(Truncate(now as real + remaining * perItem)))
  }

  /**
   * With time moving forward and the batch not over-counted, the estimate is
   * never in the past, and it is now itself once every item is processed.
   */
  lemma {:induction false} EstimateNotPast(op: Operation, now: int)
    requires op.startedAt.Some? && op.startedAt.value <= now && 0 < op.processedItems <= op.totalItems
    ensures EstimateCompletion(op, now).estimatedCompletion.value >= now
    ensures op.processedItems == op.totalItems ==> EstimateCompletion(op, now).estimatedCompletion == Some(now)
  {
    var perItem := (now - op.startedAt.value) as real / op.processedItems as real;
    var remaining := (op.totalItems - op.processedItems) as real;
    assert perItem >= 0.0;
    assert remaining * perItem >= 0.0;
    assert (now as real + remaining * perItem).Floor >= now;
  }

  /** startProcessing: PROCESSING, started now. */
  function StartProcessing(op: Operation, now: int): (op': Operation)
    ensures op'.status == Processing && op'.startedAt == Some(now)
    ensures op'.(status := op.status, startedAt := op.startedAt, estimatedCompletion := op.estimatedCompletion) == op
  {
    EstimateCompletion(op.(status := Processing, startedAt := Some(now)), now)
  }

  /** complete: COMPLETED at exactly 100 percent. */
  function Complete(op: Operation, now: int): (op': Operation)
    ensures op'.status == Completed && op'.completedAt == Some(now) && op'.progressPercentage == Some(100.0)
    ensures op'.(status := op.status, completedAt := op.completedAt, progressPercentage := op.progressPercentage) == op
  {
    op.(status := Completed, completedAt := Some(now), progressPercentage := Some(100.0))
  }

  /** fail(e): FAILED; a non-empty message becomes the first error only when there were none. */
  function Fail(op: Operation, error: Option<string>, now: int): (op': Operation)
    ensures op'.status == Failed && op'.completedAt == Some(now)
    ensures op.errors.None? && error.Some? && error.value != "" ==> op'.errors == Some([ItemError(0, error.value)])
    ensures op.errors.Some? || error.None? || error.value == "" ==> op'.errors == op.errors
    ensures op'.(status := op.status, completedAt := op.completedAt, errors := op.errors) == op
  {
    var failed := op.(status := Failed, completedAt := Some(now));
    if error.Some? && error.value != "" && op.errors.None? then failed.(errors := Some([ItemError(0, error.value)]))
    else failed
  }

  function Cancel(op: Operation, now: int): (op': Operation)
    ensures op'.status == Cancelled && op'.completedAt == Some(now)
    ensures op'.(status := op.status, completedAt := op.completedAt) == op
  {
    op.(status := Cancelled, completedAt := Some(now))
  }

  /** processed / total * 100, which is not a finite number for a total of zero. */
  function Percent(part: int, whole: int): (p: Option<real>)
    ensures p.Some? <==> whole != 0
    ensures p.Some? ==> p.value * whole as real == part as real * 100.0
  {
    if whole == 0 then None else Some(part as real / whole as real * 100.0)
  }

  /** updateProgress: the three counters as given, progress recomputed, then a new estimate. */
  function UpdateProgress(op: Operation, processed: int, success: int, failed: int, now: int): (op': Operation)
    ensures op'.processedItems == processed && op'.successItems == success && op'.failedItems == failed
    ensures op'.progressPercentage == Percent(processed, op.totalItems)
    ensures op'.(processedItems := op.processedItems, successItems := op.successItems, failedItems := op.failedItems,
                 progressPercentage := op.progressPercentage, estimatedCompletion := op.estimatedCompletion) == op
  {
    var counted := op.(processedItems := processed, successItems := success, failedItems := failed,
                       progressPercentage := Percent(processed, op.totalItems));
    EstimateCompletion(counted, now)
  }

  /** addError: one entry appended, the earlier ones kept. */
  function AddError(op: Operation, index: int, error: string): (op': Operation)
    ensures op'.errors.Some? && |op'.errors.value| == |op.errors.GetOr([])| + 1
    ensures op'.errors.value[..|op'.errors.value| - 1] == op.errors.GetOr([])
    ensures op'.errors.value[|op'.errors.value| - 1] == ItemError(index, error)
    ensures op'.(errors := op.errors) == op
  {
    op.(errors := Some(op.errors.GetOr([]) + [ItemError(index, error)]))
  }

  predicate IsActive(op: Operation) {
    op.status == Pending || op.status == Processing
  }

  predicate IsFinished(op: Operation) {
    op.status in {Completed, Failed, Cancelled}
  }

  /** getSuccessRate: zero until something is processed. */
  function SuccessRate(op: Operation): (rate: real)
    ensures op.processedItems == 0 ==> rate == 0.0
    ensures op.processedItems != 0 ==> rate * op.processedItems as real == op.successItems as real * 100.0
  {
    if op.processedItems == 0 then 0.0 else op.successItems as real / op.processedItems as real * 100.0
  }

  /** getErrorRate: zero until something is processed. */
  function ErrorRate(op: Operation): (rate: real)
    ensures op.processedItems == 0 ==> rate == 0.0
    ensures op.processedItems != 0 ==> rate * op.processedItems as real == op.failedItems as real * 100.0
  {
    if op.processedItems == 0 then 0.0 else op.failedItems as real / op.processedItems as real * 100.0
  }

  /** Every operation is exactly one of active and finished. */
  lemma ActiveOrFinished(op: Operation)
    ensures IsActive(op) != IsFinished(op)
  {
  }

  /** The three closing transitions finish an operation; starting makes it active. */
  lemma TransitionsClassify(op: Operation, error: Option<string>, now: int)
    ensures IsFinished(Complete(op, now)) && IsFinished(Fail(op, error, now)) && IsFinished(Cancel(op, now))
    ensures IsActive(StartProcessing(op, now))
  {
  }

  /** When every processed item either succeeded or failed, the two rates add up to 100 percent. */
  lemma {:induction false} RatesPartition(op: Operation)
    requires op.processedItems > 0 && op.successItems + op.failedItems == op.processedItems
    ensures SuccessRate(op) + ErrorRate(op) == 100.0
  {
    var n := op.processedItems as real;
    calc {
      (SuccessRate(op) + ErrorRate(op)) * n;
      SuccessRate(op) * n + ErrorRate(op) * n;
      op.successItems as real * 100.0 + op.failedItems as real * 100.0;
      100.0 * n;
    }
  }

  /** A rate of counted items lies between 0 and 100 percent. */
  lemma {:induction false} RateBounds(op: Operation)
    requires 0 <= op.successItems <= op.processedItems && op.processedItems > 0
    ensures 0.0 <= SuccessRate(op) <= 100.0
  {
    var n := op.processedItems as real;
    var r := SuccessRate(op);
    assert r * n == op.successItems as real * 100.0;
  }

  /** Progress reads exactly 100 percent once every item of a non-empty batch is processed. */
  lemma ProgressFull(op: Operation, success: int, failed: int, now: int)
    requires op.totalItems != 0
    ensures UpdateProgress(op, op.totalItems, success, failed, now).progressPercentage == Some(100.0)
  {
    assert op.totalItems as real / op.totalItems as real == 1.0;
  }

  /** Errors only accumulate: fail never drops an error that addError recorded. */
  lemma FailKeepsErrors(op: Operation, index: int, error: string, message: Option<string>, now: int)
    ensures Fail(AddError(op, index, error), message, now).errors == AddError(op, index, error).errors
  {
  }
}
