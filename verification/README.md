# RestoreDynamoDb: table-to-table copy, modelled in Dafny

`DynamoDB_RestoreTable2Table.js` copies every item of one DynamoDB table into another. With the
`-r` flag it first wipes the destination.

- **Wipe (`batchDeleteAllRecords`).** It describes the destination once for its key schema. It
  then scans the destination page by page and deletes every item by its key.
- **Copy (`upsertDynamoDbTable`).** It scans the source page by page. For each page, it puts every
  item into the destination.
- **Batching (`batchWriteDataToTable`).** Inside each page, the requests are buffered. The buffer
  goes out in one `batchWrite` call whenever the running count reaches a multiple of 25 or the
  page's length. A progress bar is initialised for each non-empty page and advanced after every
  `batchWrite`.
- **Pagination.** Each scan returns a `LastEvaluatedKey`, which is handed back as the next
  `ExclusiveStartKey`. The loop stops after the first page without one.
- **Failure.** Any awaited call that throws ends its phase. The exception is caught and logged.
  If the wipe fails, `restoreTable` returns without copying.

The model has six modules:

- `Items`: values, items, keys, write requests and scan pages.
- `KeyExtractor`: `getKeyForBatchDeleteItem` and `getItemAttrForBatchDeleteRequest`.
- `Chunking`: runs of at most 25 requests.
- `Storage`: the collaborators. A class `Environment` records every call made on the document
  client, the describeTable client and the progress bar, in order. A scripted `Service` answers
  those calls: the pages a full scan returns, the key schemas, and the positions at which a
  call throws. Any call can throw, a progress-bar call included. The service also always
  rejects a scan with an ExclusiveStartKey it never handed out, and a `batchWrite` with no
  request or more than 25 (the limit of DynamoDB's BatchWriteItem).
- `Plans`: the call sequence each part of the job makes when nothing throws (its *plan*). It also
  defines `Issued`, the prefix of a plan actually made when the first throwing call ends it.
- `Restore`: the job's methods.

Every phase method in `Restore` (`BatchWriteDataToTable`, `ScanAndWriteAll`,
`UpsertDynamoDbTable`, `BatchDeleteAllRecords`, `RestoreTable`) is proved to make exactly
`Issued(plan)`, and to succeed exactly when its plan completes. The two step methods
`FlushBatch` and `ScanStep` are stated with `Resumes`: the calls made so far, followed by what
the rest of the plan will issue, equal what the whole plan issues. The lemmas in `Plans` state what the plans guarantee:

- chunk sizes;
- the number of `batchWrite` calls;
- token threading;
- the order of the phases;
- which requests each phase sends.

## Model

| member | source | states |
|---|---|---|
| Chunking.Chunks | DynamoDB_RestoreTable2Table.js:131-146 | a page's requests split into flushes gives ceil(n/25) chunks |
| Chunking.ChunkSizes | DynamoDB_RestoreTable2Table.js:140-144 | every batchWrite carries 1 to 25 requests, and every one but the page's last exactly 25 |
| Chunking.FlattenChunks | DynamoDB_RestoreTable2Table.js:131-146 | the chunks, concatenated in order, are the page's requests: none lost, repeated or reordered |
| Chunking.ChunksAppend | DynamoDB_RestoreTable2Table.js:140-144 | after a flush at a multiple of 25, the remaining requests are chunked as if they started a fresh page |
| Chunking.SixtyItemsThreeBatches | DynamoDB_RestoreTable2Table.js:131-146 | 60 items go out as three calls, of items 1-25, 26-50 and 51-60 |
| KeyExtractor.KeyFold | DynamoDB_RestoreTable2Table.js:174-180 | folding the key schema over `result` yields `result`'s attributes plus the schema's, each schema attribute bound to the item's value; undefined only if the schema is empty and `result` was undefined |
| KeyExtractor.KeyForBatchDeleteItem | DynamoDB_RestoreTable2Table.js:173-183 | the key's attribute names are exactly the schema's, each value copied verbatim from the item (undefined when absent); undefined iff the schema is empty |
| KeyExtractor.ItemAttrForBatchDeleteRequest | DynamoDB_RestoreTable2Table.js:185-191 | a delete request whose key holds exactly the schema's attributes, each with the item's value verbatim; the key is undefined iff the schema is empty |
| KeyExtractor.DeleteRequestIsKeyProjection | DynamoDB_RestoreTable2Table.js:185-191 | for an item holding every key attribute, the delete request carries the item restricted to the key schema |
| Storage.ScanPageAt | DynamoDB_RestoreTable2Table.js:99-102 | handing back page i's LastEvaluatedKey as the ExclusiveStartKey yields page i+1, and no key yields page 0 |
| Storage.PageServed | DynamoDB_RestoreTable2Table.js:95 | a table has at least one page; page i is served for its start key; a page lacks LastEvaluatedKey iff it is the last |
| Storage.IssuedPrefix | DynamoDB_RestoreTable2Table.js:80-113 | the calls made are a prefix of the plan, and the whole plan when nothing throws |
| Storage.IssuedEndsAtThrow | DynamoDB_RestoreTable2Table.js:200-270 | when a call throws, it is the last call made and every call before it completed: a throw stops all further calls |
| Storage.IssuedThen | DynamoDB_RestoreTable2Table.js:80-113 | a second part's calls are made only after the first part completed; the whole completes iff both parts do |
| Storage.Continue | DynamoDB_RestoreTable2Table.js:80-113 | after a step that completed, the job resumes with the rest of the plan; after a step that threw, the calls made are all the plan issues and the plan did not complete |
| Storage.Environment.DescribeTable | DynamoDB_RestoreTable2Table.js:210-212 | records one describe call; returns the table's key schema, or a throw |
| Storage.Environment.Scan | DynamoDB_RestoreTable2Table.js:87 | records one scan call; returns the page the ExclusiveStartKey designates, or a throw |
| Storage.Environment.BatchWrite | DynamoDB_RestoreTable2Table.js:141 | records one batchWrite call with its requests; succeeds or throws |
| Storage.Environment.ProgressInit | DynamoDB_RestoreTable2Table.js:128 | records the bar's initialisation to the page's length and scan batch number; done, or a throw |
| Storage.Environment.ProgressUpdate | DynamoDB_RestoreTable2Table.js:142 | records the bar's update to the running count; done, or a throw |
| Plans.RequestFor | DynamoDB_RestoreTable2Table.js:134-138 | the request built for an item is a put exactly in the copy, carrying the item unchanged; in the wipe, always a delete, with a key exactly when the table has key attributes, that key holding the item's key attributes with their values copied verbatim |
| Plans.NextFlush | DynamoDB_RestoreTable2Table.js:140 | the next flush comes 1 to 25 items after the previous one, at 25 items on or at the page's end |
| Plans.FlushPlanBatches | DynamoDB_RestoreTable2Table.js:131-146 | the flushes send the remaining requests chunked by 25, make no scan, and make exactly two calls per batchWrite |
| Plans.FlushPlanPairs | DynamoDB_RestoreTable2Table.js:140-145 | in the flushes, batchWrites sit exactly at the even positions and bar updates at the odd ones: each batchWrite is immediately followed by its update |
| Plans.FlushPlanLast | DynamoDB_RestoreTable2Table.js:142 | the flushes make no call only when no item remains; the last bar update reports the page's length |
| Plans.PagePlanBatches | DynamoDB_RestoreTable2Table.js:127-146 | a page's batchWrite calls carry its requests chunked by 25; a page makes no scan |
| Plans.PagePlanShape | DynamoDB_RestoreTable2Table.js:124-148 | an empty page makes no call, not even the bar's init; otherwise the bar is initialised to n first, ceil(n/25) batchWrites follow, batchWrites exactly at the odd positions and bar updates at the even positions after the init (each batchWrite immediately followed by its update), and the last update reports n |
| Plans.OnePageBatches | DynamoDB_RestoreTable2Table.js:85-106 | one round of the loop is the scan for page i, then that page's chunks, then the later rounds |
| Plans.PagesPlanScans | DynamoDB_RestoreTable2Table.js:95-102 | a scan from page i makes one scan per remaining page, in order, each with that page's start key |
| Plans.ScanPlanScans | DynamoDB_RestoreTable2Table.js:76-106 | as many scans as pages, at least one; the first without an ExclusiveStartKey, each later one with the previous page's LastEvaluatedKey |
| Plans.PagesPlanWrites | DynamoDB_RestoreTable2Table.js:85-106 | the requests sent are every item of every page, each exactly once, in scan order; their number is the sum of the page item counts |
| Plans.PagesPlanBatchSizes | DynamoDB_RestoreTable2Table.js:140-144 | no batchWrite of a scan carries no request or more than 25 |
| Plans.WipeSendsOnlyDeletes | DynamoDB_RestoreTable2Table.js:231-245 | everything the wipe sends is a delete request, whether or not it completes |
| Plans.UpsertSendsOnlyPuts | DynamoDB_RestoreTable2Table.js:131-146 | everything the copy sends is a put request |
| Plans.JobOrder | DynamoDB_RestoreTable2Table.js:289-293 | without the flag only the copy runs; with it the wipe runs first, and the copy runs once, only after the wipe completed |
| Plans.JobScans | DynamoDB_RestoreTable2Table.js:289-293 | with the flag, the destination's scans all come before the source's |
| Plans.NoPutsAfterFailedWipe | DynamoDB_RestoreTable2Table.js:289-291 | if the wipe was asked for and failed, no put request is ever sent |
| Plans.NoDeletesWithoutWipe | DynamoDB_RestoreTable2Table.js:289-293 | without the flag no delete request is ever sent |
| Plans.WipeDescribesFirst | DynamoDB_RestoreTable2Table.js:210-215 | the wipe's first call is describeTable; if it throws, nothing else is called |
| Plans.CopyPutsEverySourceItem | DynamoDB_RestoreTable2Table.js:85-108 | a completed copy puts every source item, unchanged and in scan order; the count is the sum of the page item counts |
| Plans.TenItemWipeOfEmptySource | DynamoDB_RestoreTable2Table.js:275-296 | a job with the flag, a 10-item destination and an empty source scans each table once and makes a single batchWrite, of the 10 delete requests; the copy makes no batchWrite |
| Restore.BufferStep | DynamoDB_RestoreTable2Table.js:132-140 | pushing an item appends its request to the buffer; the flush condition holds exactly where the plan's next flush ends; otherwise the buffer stays under 25 and the page is not over |
| Restore.FlushBatch | DynamoDB_RestoreTable2Table.js:140-145 | one batchWrite with the buffered requests, then the bar advanced; if either threw, the job's calls are over |
| Restore.BatchWriteDataToTable | DynamoDB_RestoreTable2Table.js:117-149 | makes exactly the page plan's calls up to the first throw; returns the page's item count iff nothing threw |
| Restore.ScanStep | DynamoDB_RestoreTable2Table.js:223 | the scan with page i's start key returns page i, or throws and ends the job's calls |
| Restore.ScanAndWriteAll | DynamoDB_RestoreTable2Table.js:85-106 | makes exactly the paginated scan-and-write plan's calls up to the first throw; the loop ends after the first page without a LastEvaluatedKey, so every page is scanned once; returns the sum of the page item counts iff nothing threw |
| Restore.UpsertDynamoDbTable | DynamoDB_RestoreTable2Table.js:74-114 | the copy phase: its calls are the copy plan's up to the first throw, which is caught; it reports the total iff the plan completed |
| Restore.BatchDeleteAllRecords | DynamoDB_RestoreTable2Table.js:193-273 | describe first, then scan and delete by key; hasError iff describeTable, a scan, a batchWrite or a progress-bar call threw; the total on success |
| Restore.RestoreTable | DynamoDB_RestoreTable2Table.js:275-296 | the job's calls are the job plan's; the copy is skipped iff the flag is set and the wipe failed; a copy failure is caught |

## Left out

- The progress bar's rendering (terminal width, drawing, percentages, the resize handler) is left
  out. Its `init` and `update` calls are recorded as events with their arguments. Whether a
  draw throws, as it does when standard output is not a terminal, is up to the failure script.
  The source does not decide it.
- Number conversion is left out. The document client turns DynamoDB numbers into JavaScript
  numbers on read, and may round large ones before they are written back. The model carries
  every attribute value unchanged.
- `logMessage`, the clock and console output are left out. Where a total or a failure is only
  logged, the methods return it instead.
- The AWS configuration is left out: the region, the client construction, the SDK's retries
  (`maxRetries: 13`, base delay 200 ms) and the separate describeTable client. Retries are
  inside the SDK, so they show up only as whether a call throws, which the failure script
  decides.
- The contents of the `batchWrite` response are not modelled. The source never reads them, so
  `UnprocessedItems` are silently dropped, and the model drops them too.
- The command-line entry point (argument parsing and the `-r` flag) is not part of this model.
  The flag is the `deleteAllRecords` parameter.
- The destination table's contents are not modelled. The service answers scans from fixed pages
  per table, so writes do not affect later scans. A copy into the table being read is therefore
  not captured.
- The scan protocol is assumed, not checked:
  - there is at least one page;
  - only the last page lacks a LastEvaluatedKey;
  - the keys are distinct.

  A service that hands out some other ExclusiveStartKey is answered with a throw.
- Attribute types in the key schema (`KeyType`, `AttributeDefinitions`) are not read by the
  source, and are not modelled.
- All collaborators share one ordered trace, because every call is awaited before the next one.
  There is no concurrency to model.
- `FlushBatch`, `ScanStep` and `BufferStep` are the flush block, the scan and the per-item step of
  the loops, split out as separate members. The source has them inline.
- The identical per-page loops of `batchWriteDataToTable` (puts) and `batchDeleteAllRecords`
  (deletes) are one method with a `WriteOp` parameter. The two do-while scan loops are likewise
  one method, `ScanAndWriteAll`.
