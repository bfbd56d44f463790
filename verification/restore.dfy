/**
 * RestoreDynamoDb: the chunked batch writer, the scan paginator, the wipe and copy phases,
 * and the job that sequences them. Every call is awaited before the next one is made,
 * so each awaited call is an ordinary method call on the environment.
 */
module Restore {
  import opened Items
  import opened Chunking
  import opened Storage
  import opened Plans

  /** How a job ends: the wipe failed and the copy was skipped, or the copy ran (and succeeded or failed). */
  datatype JobEnd = CopySkipped | JobDone(copy: Result<nat>)

  /** The running count is a multiple of 25 exactly when the buffer holds 25 requests. */
  lemma {:induction false} FlushPoint(done: nat, buffered: nat)
    requires done % MaxBatch == 0 && 1 <= buffered <= MaxBatch
    ensures (done + buffered) % MaxBatch == 0 <==> buffered == MaxBatch
  {
    assert done == MaxBatch * (done / MaxBatch);
  }

  /**
   * One item of the writer's loop, with the last flush at `done` and item i about to be
   * buffered: the buffer grows by that item's request, and the flush condition holds exactly
   * where the plan's next flush ends, the plan then being that flush followed by the rest.
   */
  lemma {:induction false} BufferStep(table: string, op: WriteOp, items: seq<Item>, done: nat, i: nat)
    requires done <= i < |items| && i - done < MaxBatch && done % MaxBatch == 0
    ensures Requests(op, items[done..i + 1]) == Requests(op, items[done..i]) + [RequestFor(op, items[i])]
    ensures ((i + 1) % MaxBatch == 0 || i + 1 == |items|) <==> i + 1 == NextFlush(|items|, done)
    ensures i + 1 != NextFlush(|items|, done) ==> i + 1 - done < MaxBatch && i + 1 < |items|
    ensures i + 1 == NextFlush(|items|, done) ==>
              FlushPlan(table, op, items, done)
              == [BatchWriteCall(table, Requests(op, items[done..i + 1]))]
                 + ([UpdateBar(i + 1)] + FlushPlan(table, op, items, i + 1))
  {
    RequestsPush(op, items, done, i);
    FlushPoint(done, i + 1 - done);
  }

  /**
   * The flush inside batchWriteDataToTable's loop: one batchWrite with the buffered requests,
   * then the bar advanced to the running count. Returns false if the batchWrite or the bar's
   * update threw, in which case the job's calls are over; otherwise `rest` is what the job has
   * left to make.
   */
  method FlushBatch(env: Environment, tableName: string, buffer: seq<WriteRequest>, batchRecNum: nat,
                    ghost whole: seq<Event>, ghost base: nat, ghost start: seq<Event>, ghost rest: seq<Event>)
    returns (ok: bool)
    requires env.Valid()
    requires Resumes(env.svc, whole, base, start, env.trace,
                     [BatchWriteCall(tableName, buffer)] + ([UpdateBar(batchRecNum)] + rest))
    modifies env
    ensures env.Valid()
    ensures ok ==> Resumes(env.svc, whole, base, start, env.trace, rest)
    ensures !ok ==> env.trace == start + Issued(env.svc, whole, base) && !Completes(env.svc, whole, base)
  {
    ghost var write := BatchWriteCall(tableName, buffer);
    ghost var before := env.trace;
    OneCall(env.svc, write, |before|);
    ok := env.BatchWrite(tableName, buffer);
    Continue(env.svc, whole, base, start, before, [write], [UpdateBar(batchRecNum)] + rest, env.trace, ok);
    if ok {
      before := env.trace;
      OneCall(env.svc, UpdateBar(batchRecNum), |before|);
      ok := env.ProgressUpdate(batchRecNum);
      Continue(env.svc, whole, base, start, before, [UpdateBar(batchRecNum)], rest, env.trace, ok);
    }
  }

  /**
   * batchWriteDataToTable (and the identical inner loop of batchDeleteAllRecords, with delete
   * requests): walk the page's items, buffer one request per item, and flush the buffer with
   * one batchWrite whenever the running count reaches a multiple of 25 or the page's length.
   * Returns the number of items, or Threw if a batchWrite or a progress-bar call threw.
   */
  method BatchWriteDataToTable(env: Environment, tableName: string, op: WriteOp, items: seq<Item>, scanBatchNum: nat)
    returns (r: Result<nat>)
    requires env.Valid()
    modifies env
    ensures env.Valid()
    ensures env.trace == old(env.trace) + Issued(env.svc, PagePlan(tableName, op, items, scanBatchNum), old(|env.trace|))
    ensures r.Ok? <==> Completes(env.svc, PagePlan(tableName, op, items, scanBatchNum), old(|env.trace|))
    ensures r.Ok? ==> r.value == |items|
  {
    ghost var base := |env.trace|;
    ghost var plan := PagePlan(tableName, op, items, scanBatchNum);
    var batchRecNum := 0;
    var buffer: seq<WriteRequest> := [];
    var len := |items|;
    Started(env.svc, plan, env.trace);
    if len > 0 {
      OneCall(env.svc, InitBar(len, scanBatchNum), base);
      var ok := env.ProgressInit(len, scanBatchNum);
      Continue(env.svc, plan, base, old(env.trace), old(env.trace), [InitBar(len, scanBatchNum)],
               FlushPlan(tableName, op, items, 0), env.trace, ok);
      if !ok {
        return Threw;
      }
    }
    ghost var done := 0;
    for i := 0 to len
      invariant env.Valid()
      invariant batchRecNum == i
      invariant done <= i && i - done < MaxBatch
      invariant i < len ==> done % MaxBatch == 0
      invariant i == len ==> done == len
      invariant buffer == Requests(op, items[done..i])
      invariant Resumes(env.svc, plan, base, old(env.trace), env.trace, FlushPlan(tableName, op, items, done))
    {
      var item := items[i];
      BufferStep(tableName, op, items, done, i);
      batchRecNum := batchRecNum + 1;
      buffer := buffer + [RequestFor(op, item)];
      if batchRecNum % MaxBatch == 0 || batchRecNum == len {
        var ok := FlushBatch(env, tableName, buffer, batchRecNum, plan, base, old(env.trace),
                             FlushPlan(tableName, op, items, batchRecNum));
        if !ok {
          return Threw;
        }
        buffer := [];
        done := batchRecNum;
      }
    }
    Finished(env.svc, plan, base, old(env.trace), env.trace);
    r := Ok(batchRecNum);
  }

  /**
   * The scan at the head of each round of the do-while loops: ask for the page that starts
   * at `exclusiveStartKey`, which is the i-th page of the table. Returns that page, or Threw,
   * in which case the job's calls are over; otherwise `rest` is what the job has left to make.
   */
  method ScanStep(env: Environment, scanTable: string, exclusiveStartKey: Option<Key>, ghost i: nat,
                  ghost whole: seq<Event>, ghost base: nat, ghost start: seq<Event>, ghost rest: seq<Event>)
    returns (data: Result<Page>)
    requires env.Valid()
    requires i < |env.svc.tables(scanTable)| && exclusiveStartKey == StartKey(env.svc.tables(scanTable), i)
    requires Resumes(env.svc, whole, base, start, env.trace, [ScanCall(scanTable, exclusiveStartKey)] + rest)
    modifies env
    ensures env.Valid()
    ensures data.Ok? ==> data.value == env.svc.tables(scanTable)[i] && Resumes(env.svc, whole, base, start, env.trace, rest)
    ensures data.Threw? ==> env.trace == start + Issued(env.svc, whole, base) && !Completes(env.svc, whole, base)
  {
    ghost var scan := ScanCall(scanTable, exclusiveStartKey);
    ghost var before := env.trace;
    PageServed(env.svc, scanTable, i);
    OneCall(env.svc, scan, |before|);
    data := env.Scan(scanTable, exclusiveStartKey);
    Continue(env.svc, whole, base, start, before, [scan], rest, env.trace, data.Ok?);
  }

  /**
   * The do-while scan loop of upsertDynamoDbTable and batchDeleteAllRecords: scan `scanTable`
   * page by page, handing each page's LastEvaluatedKey back as the next ExclusiveStartKey, write
   * each page to `writeTable`, and stop after the first page without a LastEvaluatedKey.
   * Returns the total number of items written, or Threw if a call threw.
   */
  method ScanAndWriteAll(env: Environment, scanTable: string, writeTable: string, op: WriteOp)
    returns (r: Result<nat>)
    requires env.Valid()
    modifies env
    ensures env.Valid()
    ensures env.trace == old(env.trace)
                       + Issued(env.svc, ScanPlan(scanTable, writeTable, op, env.svc.tables(scanTable)), old(|env.trace|))
    ensures r.Ok? <==> Completes(env.svc, ScanPlan(scanTable, writeTable, op, env.svc.tables(scanTable)), old(|env.trace|))
    ensures r.Ok? ==> r.value == TotalItems(env.svc.tables(scanTable))
  {
    ghost var base := |env.trace|;
    ghost var pages := env.svc.tables(scanTable);
    ghost var plan := ScanPlan(scanTable, writeTable, op, pages);
    PageServed(env.svc, scanTable, 0);
    Started(env.svc, plan, env.trace);
    var isDone := false;
    var exclusiveStartKey: Option<Key> := None;
    var totalRecNum := 0;
    var scanBatchNum := 0;
    while !isDone
      invariant env.Valid()
      invariant scanBatchNum <= |pages|
      invariant isDone <==> scanBatchNum == |pages|
      invariant scanBatchNum < |pages| ==> exclusiveStartKey == StartKey(pages, scanBatchNum)
      invariant Resumes(env.svc, plan, base, old(env.trace), env.trace, PagesPlan(scanTable, writeTable, op, pages, scanBatchNum))
      invariant totalRecNum + TotalItems(pages[scanBatchNum..]) == TotalItems(pages)
      decreases |pages| - scanBatchNum
    {
      ghost var i := scanBatchNum;
      ghost var page := PagePlan(writeTable, op, pages[i].items, i + 1);
      ghost var rest := PagesPlan(scanTable, writeTable, op, pages, i + 1);
      var data := ScanStep(env, scanTable, exclusiveStartKey, i, plan, base, old(env.trace), page + rest);
      if data.Threw? {
        return Threw;
      }
      scanBatchNum := scanBatchNum + 1;
      ghost var before := env.trace;
      var written := BatchWriteDataToTable(env, writeTable, op, data.value.items, scanBatchNum);
      Continue(env.svc, plan, base, old(env.trace), before, page, rest, env.trace, written.Ok?);
      if written.Threw? {
        return Threw;
      }
      PagesFrom(pages, i);
      PageServed(env.svc, scanTable, i);
      totalRecNum := totalRecNum + written.value;
      isDone := data.value.lastEvaluatedKey.None?;
      if !isDone {
        exclusiveStartKey := data.value.lastEvaluatedKey;
      }
    }
    assert pages[|pages|..] == [];
    Finished(env.svc, plan, base, old(env.trace), env.trace);
    r := Ok(totalRecNum);
  }

  /**
   * upsertDynamoDbTable: copy every item of the source table into the destination table.
   * A throw is caught (and logged); the result says what was logged: the total, or failure.
   */
  method UpsertDynamoDbTable(env: Environment, sourceTable: string, destinationTable: string)
    returns (r: Result<nat>)
    requires env.Valid()
    modifies env
    ensures env.Valid()
    ensures env.trace == old(env.trace) + Issued(env.svc, UpsertPlan(env.svc, sourceTable, destinationTable), old(|env.trace|))
    ensures r.Ok? <==> Completes(env.svc, UpsertPlan(env.svc, sourceTable, destinationTable), old(|env.trace|))
    ensures r.Ok? ==> r.value == TotalItems(env.svc.tables(sourceTable))
  {
    r := ScanAndWriteAll(env, sourceTable, destinationTable, Put);
  }

  /**
   * batchDeleteAllRecords: describe the table once for its key schema, then delete every item
   * it holds by key. Returns hasError (true iff describeTable, a scan, a batchWrite or a
   * progress-bar call threw),
   * and the total of deleted items that the success log reports.
   */
  method BatchDeleteAllRecords(env: Environment, tableName: string) returns (hasError: bool, totalRecNum: nat)
    requires env.Valid()
    modifies env
    ensures env.Valid()
    ensures env.trace == old(env.trace) + Issued(env.svc, WipePlan(env.svc, tableName), old(|env.trace|))
    ensures hasError <==> !Completes(env.svc, WipePlan(env.svc, tableName), old(|env.trace|))
    ensures !hasError ==> totalRecNum == TotalItems(env.svc.tables(tableName))
  {
    ghost var base := |env.trace|;
    ghost var describe := DescribeCall(tableName);
    ghost var scans := ScanPlan(tableName, tableName, Delete(env.svc.keySchemas(tableName)), env.svc.tables(tableName));
    OneCall(env.svc, describe, base);
    Started(env.svc, WipePlan(env.svc, tableName), env.trace);
    var tableDescription := env.DescribeTable(tableName);
    Continue(env.svc, WipePlan(env.svc, tableName), base, old(env.trace), old(env.trace), [describe], scans,
             env.trace, tableDescription.Ok?);
    if tableDescription.Threw? {
      return true, 0;
    }
    var r := ScanAndWriteAll(env, tableName, tableName, Delete(tableDescription.value));
    if r.Threw? {
      return true, 0;
    }
    return false, r.value;
  }

  /**
   * restoreTable: wipe the destination only when asked to; if the wipe reports an error,
   * return without copying; otherwise copy the source once. A failed copy is caught inside
   * the copy phase, so the job itself never throws.
   */
  method RestoreTable(env: Environment, sourceTable: string, destinationTable: string, deleteAllRecords: bool)
    returns (end: JobEnd)
    requires env.Valid()
    modifies env
    ensures env.Valid()
    ensures env.trace == old(env.trace) + Issued(env.svc, JobPlan(env.svc, sourceTable, destinationTable, deleteAllRecords), old(|env.trace|))
    ensures end.CopySkipped? <==> deleteAllRecords && !Completes(env.svc, WipePlan(env.svc, destinationTable), old(|env.trace|))
    ensures end.JobDone? ==>
              var copyStart := old(|env.trace|) + (if deleteAllRecords then |WipePlan(env.svc, destinationTable)| else 0);
              (end.copy.Ok? <==> Completes(env.svc, UpsertPlan(env.svc, sourceTable, destinationTable), copyStart))
    ensures end.JobDone? && end.copy.Ok? ==> end.copy.value == TotalItems(env.svc.tables(sourceTable))
  {
    ghost var base := |env.trace|;
    JobOrder(env.svc, sourceTable, destinationTable, deleteAllRecords, base);
    if deleteAllRecords {
      var hasError, _ := BatchDeleteAllRecords(env, destinationTable);
      if hasError {
        return CopySkipped;
      }
      IssuedPrefix(env.svc, WipePlan(env.svc, destinationTable), base);
    }
    var copy := UpsertDynamoDbTable(env, sourceTable, destinationTable);
    end := JobDone(copy);
  }
}
