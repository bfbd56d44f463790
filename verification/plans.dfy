/**
 * The calls each part of the job sets out to make, page by page, when nothing throws,
 * and what those call sequences guarantee: chunk sizes, order, token threading, progress.
 */
module Plans {
  import opened Items
  import opened Chunking
  import opened KeyExtractor
  import opened Storage

  /** The request each scanned item becomes: the item itself, or its key for a delete. */
  datatype WriteOp = Put | Delete(keySchema: seq<string>)

  function RequestFor(op: WriteOp, item: Item): (r: WriteRequest)
    ensures r.PutRequest? <==> op.Put?
    ensures op.Put? ==> r.item == item
    ensures op.Delete? ==> r.DeleteRequest? && (r.key.Some? <==> op.keySchema != [])
    ensures op.Delete? ==> r.key.Some? ==> r.key.value.Keys == set a | a in op.keySchema
    ensures op.Delete? ==> r.key.Some? ==> forall a :: a in r.key.value ==> r.key.value[a] == Get(item, a)
  {
    match op
    case Put => PutRequest(item)
    case Delete(keySchema) => ItemAttrForBatchDeleteRequest(keySchema, item)
  }

  function Requests(op: WriteOp, items: seq<Item>): seq<WriteRequest> {
    seq(|items|, i requires 0 <= i < |items| => RequestFor(op, items[i]))
  }

  lemma {:induction false} RequestsAppend(op: WriteOp, a: seq<Item>, b: seq<Item>)
    ensures Requests(op, a + b) == Requests(op, a) + Requests(op, b)
  {
  }

  /** Where the flush that starts at `done` ends: 25 requests on, or the end of the page. */
  function NextFlush(len: nat, done: nat): (next: nat)
    requires done < len
    ensures done < next <= len && next - done <= MaxBatch
    ensures next == len || next == done + MaxBatch
  {
    if len - done <= MaxBatch then len else done + MaxBatch
  }

  /**
   * The flushes of a page's items from position `done` on: one batchWrite with the next
   * (at most 25) requests, then the bar advanced to the running count, until the page ends.
   */
  function FlushPlan(table: string, op: WriteOp, items: seq<Item>, done: nat): seq<Event>
    requires done <= |items|
    decreases |items| - done
  {
    if done == |items| then []
    else
      var next := NextFlush(|items|, done);
      [BatchWriteCall(table, Requests(op, items[done..next]))]
      + ([UpdateBar(next)] + FlushPlan(table, op, items, next))
  }

  /** One scanned page: the bar is initialised only for a non-empty page, then the page is flushed chunk by chunk. */
  function PagePlan(table: string, op: WriteOp, items: seq<Item>, scanBatch: nat): seq<Event> {
    if |items| == 0 then []
    else [InitBar(|items|, scanBatch)] + FlushPlan(table, op, items, 0)
  }

  /**
   * A paginated scan of `scanTable` from page i on: the scan for page i (its scan batch number
   * is i + 1), the writes of that page to `writeTable`, then the pages after it.
   */
  function PagesPlan(scanTable: string, writeTable: string, op: WriteOp, pages: seq<Page>, i: nat): seq<Event>
    requires i <= |pages|
    decreases |pages| - i
  {
    if i == |pages| then []
    else
      [ScanCall(scanTable, StartKey(pages, i))]
      + (PagePlan(writeTable, op, pages[i].items, i + 1) + PagesPlan(scanTable, writeTable, op, pages, i + 1))
  }

  function ScanPlan(scanTable: string, writeTable: string, op: WriteOp, pages: seq<Page>): seq<Event> {
    PagesPlan(scanTable, writeTable, op, pages, 0)
  }

  /** The copy phase: scan the source, put every item into the destination. */
  function UpsertPlan(svc: Service, sourceTable: string, destinationTable: string): seq<Event> {
    ScanPlan(sourceTable, destinationTable, Put, svc.tables(sourceTable))
  }

  /** The wipe phase: describe the table, then scan it and delete every item by its key. */
  function WipePlan(svc: Service, table: string): seq<Event> {
    [DescribeCall(table)] + ScanPlan(table, table, Delete(svc.keySchemas(table)), svc.tables(table))
  }

  /** The calls of a whole job: the wipe of the destination (only when asked for), then the copy. */
  function JobPlan(svc: Service, src: string, dest: string, deleteAllRecords: bool): seq<Event> {
    (if deleteAllRecords then WipePlan(svc, dest) else []) + UpsertPlan(svc, src, dest)
  }

  /** The request lists of the batchWrite calls in a call sequence, in order. */
  function BatchesOf(es: seq<Event>): seq<seq<WriteRequest>>
    decreases |es|
  {
    if es == [] then []
    else (if es[0].BatchWriteCall? then [es[0].requests] else []) + BatchesOf(es[1..])
  }

  /** Every write request sent in a call sequence, in order. */
  function RequestsSent(es: seq<Event>): seq<WriteRequest> {
    Flatten(BatchesOf(es))
  }

  /** The scan calls in a call sequence, in order. */
  function ScansOf(es: seq<Event>): seq<Event>
    decreases |es|
  {
    if es == [] then []
    else (if es[0].ScanCall? then [es[0]] else []) + ScansOf(es[1..])
  }

  lemma {:induction false} BatchesOfAppend(a: seq<Event>, b: seq<Event>)
    ensures BatchesOf(a + b) == BatchesOf(a) + BatchesOf(b)
    ensures ScansOf(a + b) == ScansOf(a) + ScansOf(b)
    decreases |a|
  {
    if a == [] {
      assert a + b == b;
    } else {
      assert (a + b)[0] == a[0];
      assert (a + b)[1..] == a[1..] + b;
      BatchesOfAppend(a[1..], b);
    }
  }

  /** All items of the given pages, in scan order. */
  function AllItems(pages: seq<Page>): seq<Item>
    decreases |pages|
  {
    if pages == [] then [] else pages[0].items + AllItems(pages[1..])
  }

  /** The sum of the pages' item counts. */
  function TotalItems(pages: seq<Page>): nat
    decreases |pages|
  {
    if pages == [] then 0 else |pages[0].items| + TotalItems(pages[1..])
  }

  /** Slicing the items slices their requests the same way. */
  lemma {:induction false} RequestsSlice(op: WriteOp, items: seq<Item>, lo: nat, hi: nat)
    requires lo <= hi <= |items|
    ensures Requests(op, items)[lo..hi] == Requests(op, items[lo..hi])
  {
  }

  /** One more buffered item adds its request at the end of the buffer. */
  lemma {:induction false} RequestsPush(op: WriteOp, items: seq<Item>, lo: nat, hi: nat)
    requires lo <= hi < |items|
    ensures Requests(op, items[lo..hi + 1]) == Requests(op, items[lo..hi]) + [RequestFor(op, items[hi])]
  {
    assert items[lo..hi + 1] == items[lo..hi] + [items[hi]];
    RequestsAppend(op, items[lo..hi], [items[hi]]);
  }

  /** The batches and scans of a batchWrite, the progress update after it, and the calls after those. */
  lemma {:induction false} WriteThen(write: Event, update: Event, rest: seq<Event>)
    requires write.BatchWriteCall? && update.UpdateBar?
    ensures BatchesOf([write] + ([update] + rest)) == [write.requests] + BatchesOf(rest)
    ensures ScansOf([write] + ([update] + rest)) == ScansOf(rest)
  {
    BatchesOfAppend([write], [update] + rest);
    BatchesOfAppend([update], rest);
    assert [write][1..] == [] && [update][1..] == [];
  }

  /** The chunks of the requests from `done` on: the run up to the next flush point, then the chunks after it. */
  lemma {:induction false} ChunksFrom(op: WriteOp, items: seq<Item>, done: nat)
    requires done < |items|
    ensures Chunks(Requests(op, items[done..]))
         == [Requests(op, items[done..NextFlush(|items|, done)])] + Chunks(Requests(op, items[NextFlush(|items|, done)..]))
  {
    var next := NextFlush(|items|, done);
    var reqs := Requests(op, items[done..]);
    RequestsSlice(op, items[done..], 0, next - done);
    assert items[done..][0..next - done] == items[done..next];
    if next == |items| {
      assert reqs[0..next - done] == reqs;
      assert items[next..] == [];
    } else {
      RequestsSlice(op, items[done..], MaxBatch, |items| - done);
      assert items[done..][MaxBatch..|items| - done] == items[next..];
      assert reqs[MaxBatch..|items| - done] == reqs[MaxBatch..];
    }
  }

  /**
   * The flushes of a page from `done` on send the remaining requests chunked into runs of 25
   * (the last one shorter), make no scan, and pair each batchWrite with one progress update.
   */
  lemma {:induction false} FlushPlanBatches(table: string, op: WriteOp, items: seq<Item>, done: nat)
    requires done <= |items|
    ensures var flushes := FlushPlan(table, op, items, done);
            && BatchesOf(flushes) == Chunks(Requests(op, items[done..]))
            && ScansOf(flushes) == []
            && |flushes| == 2 * |BatchesOf(flushes)|
    decreases |items| - done
  {
    if done < |items| {
      var next := NextFlush(|items|, done);
      FlushPlanBatches(table, op, items, next);
      WriteThen(BatchWriteCall(table, Requests(op, items[done..next])), UpdateBar(next), FlushPlan(table, op, items, next));
      ChunksFrom(op, items, done);
    } else {
      assert items[done..] == [];
    }
  }

  /** A call sequence made of pairs: a batchWrite, immediately followed by a progress-bar update. */
  predicate WriteUpdatePairs(es: seq<Event>)
    decreases |es|
  {
    es == [] || (|es| >= 2 && es[0].BatchWriteCall? && es[1].UpdateBar? && WriteUpdatePairs(es[2..]))
  }

  /** In a sequence of such pairs the batchWrites sit at the even positions and the updates at the odd ones. */
  lemma {:induction false} PairsAt(es: seq<Event>)
    requires WriteUpdatePairs(es)
    ensures forall j :: 0 <= j < |es| ==> (es[j].BatchWriteCall? <==> j % 2 == 0) && (j % 2 == 1 ==> es[j].UpdateBar?)
    decreases |es|
  {
    if es != [] {
      var rest := es[2..];
      PairsAt(rest);
      forall j | 2 <= j < |es|
        ensures (es[j].BatchWriteCall? <==> j % 2 == 0) && (j % 2 == 1 ==> es[j].UpdateBar?)
      {
        assert es[j] == rest[j - 2];
        assert (j - 2) % 2 == j % 2;
      }
    }
  }

  /**
   * The flushes of a page from `done` on are pairs of calls: each batchWrite is immediately
   * followed by its progress update, so batchWrites take the even positions and updates the odd ones.
   */
  lemma {:induction false} FlushPlanPairs(table: string, op: WriteOp, items: seq<Item>, done: nat)
    requires done <= |items|
    ensures var flushes := FlushPlan(table, op, items, done);
            forall j :: 0 <= j < |flushes| ==>
              (flushes[j].BatchWriteCall? <==> j % 2 == 0) && (j % 2 == 1 ==> flushes[j].UpdateBar?)
  {
    FlushPlanPaired(table, op, items, done);
    PairsAt(FlushPlan(table, op, items, done));
  }

  lemma {:induction false} FlushPlanPaired(table: string, op: WriteOp, items: seq<Item>, done: nat)
    requires done <= |items|
    ensures WriteUpdatePairs(FlushPlan(table, op, items, done))
    decreases |items| - done
  {
    if done < |items| {
      var next := NextFlush(|items|, done);
      var rest := FlushPlan(table, op, items, next);
      FlushPlanPaired(table, op, items, next);
      var flushes := [BatchWriteCall(table, Requests(op, items[done..next]))] + ([UpdateBar(next)] + rest);
      assert flushes[2..] == rest;
    }
  }

  /** The flushes from `done` on make no call only when no item remains, and the last one reports the page's length. */
  lemma {:induction false} FlushPlanLast(table: string, op: WriteOp, items: seq<Item>, done: nat)
    requires done <= |items|
    ensures var flushes := FlushPlan(table, op, items, done);
            && (done == |items| <==> flushes == [])
            && (done < |items| ==> flushes[|flushes| - 1] == UpdateBar(|items|))
    decreases |items| - done
  {
    if done < |items| {
      var next := NextFlush(|items|, done);
      var rest := FlushPlan(table, op, items, next);
      FlushPlanLast(table, op, items, next);
      var flushes := [BatchWriteCall(table, Requests(op, items[done..next]))] + ([UpdateBar(next)] + rest);
      assert flushes[|flushes| - 1] == ([UpdateBar(next)] + rest)[|rest|];
    }
  }

  /** The batches and scans of the bar's initialisation and the calls after it. */
  lemma {:induction false} InitThen(init: Event, rest: seq<Event>)
    requires init.InitBar?
    ensures BatchesOf([init] + rest) == BatchesOf(rest)
    ensures ScansOf([init] + rest) == ScansOf(rest)
  {
    BatchesOfAppend([init], rest);
    assert [init][1..] == [];
  }

  /** The batchWrite calls of one page carry its requests chunked, and a page makes no scan. */
  lemma {:induction false} PagePlanBatches(table: string, op: WriteOp, items: seq<Item>, scanBatch: nat)
    ensures BatchesOf(PagePlan(table, op, items, scanBatch)) == Chunks(Requests(op, items))
    ensures ScansOf(PagePlan(table, op, items, scanBatch)) == []
    ensures |items| > 0 ==> |PagePlan(table, op, items, scanBatch)| == 1 + 2 * |BatchesOf(PagePlan(table, op, items, scanBatch))|
  {
    FlushPlanBatches(table, op, items, 0);
    assert items[0..] == items;
    if |items| > 0 {
      InitThen(InitBar(|items|, scanBatch), FlushPlan(table, op, items, 0));
    }
  }

  /**
   * One page with n items: no call at all when n is 0 (not even the bar's init); otherwise
   * the bar is initialised to n first, then ceil(n/25) batchWrite calls carry the page's
   * requests chunked by 25, each followed by an update of the bar, the last update reporting n.
   */
  lemma {:induction false} PagePlanShape(table: string, op: WriteOp, items: seq<Item>, scanBatch: nat)
    ensures var plan := PagePlan(table, op, items, scanBatch);
            && (|items| == 0 <==> plan == [])
            && |BatchesOf(plan)| == (|items| + MaxBatch - 1) / MaxBatch
            && (|items| > 0 ==>
                  && |plan| == 1 + 2 * |BatchesOf(plan)|
                  && plan[0] == InitBar(|items|, scanBatch)
                  && plan[|plan| - 1] == UpdateBar(|items|)
                  && forall j :: 1 <= j < |plan| ==>
                       (plan[j].BatchWriteCall? <==> j % 2 == 1) && (j % 2 == 0 ==> plan[j].UpdateBar?))
  {
    PagePlanBatches(table, op, items, scanBatch);
    FlushPlanLast(table, op, items, 0);
    if |items| > 0 {
      FlushPlanPairs(table, op, items, 0);
      PairsAfter(InitBar(|items|, scanBatch), FlushPlan(table, op, items, 0));
    }
  }

  /** Pairs placed after one leading call: batchWrites move to the odd positions, updates to the even ones. */
  lemma {:induction false} PairsAfter(first: Event, es: seq<Event>)
    requires forall j :: 0 <= j < |es| ==> (es[j].BatchWriteCall? <==> j % 2 == 0) && (j % 2 == 1 ==> es[j].UpdateBar?)
    ensures var all := [first] + es;
            forall j :: 1 <= j < |all| ==> (all[j].BatchWriteCall? <==> j % 2 == 1) && (j % 2 == 0 ==> all[j].UpdateBar?)
  {
    var all := [first] + es;
    forall j | 1 <= j < |all|
      ensures (all[j].BatchWriteCall? <==> j % 2 == 1) && (j % 2 == 0 ==> all[j].UpdateBar?)
    {
      assert all[j] == es[j - 1];
      assert (j - 1) % 2 != j % 2;
    }
  }

  /** The batches and scans of a scan call followed by two parts of a plan. */
  lemma {:induction false} ScanThen(scan: Event, page: seq<Event>, rest: seq<Event>)
    requires scan.ScanCall?
    ensures BatchesOf([scan] + (page + rest)) == BatchesOf(page) + BatchesOf(rest)
    ensures ScansOf([scan] + (page + rest)) == [scan] + ScansOf(page) + ScansOf(rest)
  {
    BatchesOfAppend([scan], page + rest);
    BatchesOfAppend(page, rest);
    assert [scan][1..] == [];
  }

  /** Scanning and writing page i adds that page's chunks before those of the pages after it. */
  lemma {:induction false} OnePageBatches(scanTable: string, writeTable: string, op: WriteOp, pages: seq<Page>, i: nat)
    requires i < |pages|
    ensures BatchesOf(PagesPlan(scanTable, writeTable, op, pages, i))
         == Chunks(Requests(op, pages[i].items)) + BatchesOf(PagesPlan(scanTable, writeTable, op, pages, i + 1))
    ensures ScansOf(PagesPlan(scanTable, writeTable, op, pages, i))
         == [ScanCall(scanTable, StartKey(pages, i))] + ScansOf(PagesPlan(scanTable, writeTable, op, pages, i + 1))
  {
    var scan := ScanCall(scanTable, StartKey(pages, i));
    var page := PagePlan(writeTable, op, pages[i].items, i + 1);
    var rest := PagesPlan(scanTable, writeTable, op, pages, i + 1);
    assert PagesPlan(scanTable, writeTable, op, pages, i) == [scan] + (page + rest);
    ScanThen(scan, page, rest);
    PagePlanBatches(writeTable, op, pages[i].items, i + 1);
    SkipEmpty([scan], ScansOf(page), ScansOf(rest));
  }

  /** An empty middle part of a concatenation can be dropped. */
  lemma {:induction false} SkipEmpty<T>(a: seq<T>, b: seq<T>, c: seq<T>)
    requires b == []
    ensures a + b + c == a + c
  {
    assert a + b == a;
  }

  /** The scans a paginated scan from page i is expected to make: one per remaining page, with that page's start key. */
  function ExpectedScans(scanTable: string, pages: seq<Page>, i: nat): seq<Event>
    requires i <= |pages|
    decreases |pages| - i
  {
    if i == |pages| then []
    else [ScanCall(scanTable, StartKey(pages, i))] + ExpectedScans(scanTable, pages, i + 1)
  }

  /** The expected scans, one by one: the j-th is the scan for page i + j. */
  lemma {:induction false} ExpectedScansAt(scanTable: string, pages: seq<Page>, i: nat)
    requires i <= |pages|
    ensures |ExpectedScans(scanTable, pages, i)| == |pages| - i
    ensures forall j :: 0 <= j < |pages| - i ==>
              ExpectedScans(scanTable, pages, i)[j] == ScanCall(scanTable, StartKey(pages, i + j))
    decreases |pages| - i
  {
    if i < |pages| {
      var scans := ExpectedScans(scanTable, pages, i);
      var rest := ExpectedScans(scanTable, pages, i + 1);
      ExpectedScansAt(scanTable, pages, i + 1);
      assert scans == [ScanCall(scanTable, StartKey(pages, i))] + rest;
      forall j | 0 <= j < |pages| - i
        ensures scans[j] == ScanCall(scanTable, StartKey(pages, i + j))
      {
        if j > 0 {
          ConsAt(ScanCall(scanTable, StartKey(pages, i)), rest, j);
          assert i + 1 + (j - 1) == i + j;
        }
      }
    }
  }

  /** Indexing past the head of a sequence. */
  lemma {:induction false} ConsAt<T>(x: T, rest: seq<T>, j: nat)
    requires 0 < j <= |rest|
    ensures ([x] + rest)[j] == rest[j - 1]
  {
  }

  /**
   * The pagination: a scan from page i makes one scan call per remaining page, in order, the
   * first with page i's start key and each later one with the previous page's LastEvaluatedKey.
   */
  lemma {:induction false} PagesPlanScans(scanTable: string, writeTable: string, op: WriteOp, pages: seq<Page>, i: nat)
    requires i <= |pages|
    ensures ScansOf(PagesPlan(scanTable, writeTable, op, pages, i)) == ExpectedScans(scanTable, pages, i)
    decreases |pages| - i
  {
    if i < |pages| {
      PagesPlanScans(scanTable, writeTable, op, pages, i + 1);
      OnePageBatches(scanTable, writeTable, op, pages, i);
    }
  }

  /**
   * A full scan: as many scan calls as pages (at least one), the first without an
   * ExclusiveStartKey and each later one with the previous page's LastEvaluatedKey, verbatim;
   * the last page scanned is the first one without a LastEvaluatedKey.
   */
  lemma {:induction false} ScanPlanScans(scanTable: string, writeTable: string, op: WriteOp, pages: seq<Page>)
    requires ValidPages(pages)
    ensures var scans := ScansOf(ScanPlan(scanTable, writeTable, op, pages));
            && |scans| == |pages| >= 1
            && scans[0] == ScanCall(scanTable, None)
            && (forall i :: 0 < i < |scans| ==>
                  pages[i - 1].lastEvaluatedKey.Some? && scans[i] == ScanCall(scanTable, pages[i - 1].lastEvaluatedKey))
            && pages[|pages| - 1].lastEvaluatedKey.None?
  {
    var scans := ScansOf(ScanPlan(scanTable, writeTable, op, pages));
    PagesPlanScans(scanTable, writeTable, op, pages, 0);
    ExpectedScansAt(scanTable, pages, 0);
    forall i | 0 < i < |scans|
      ensures pages[i - 1].lastEvaluatedKey.Some? && scans[i] == ScanCall(scanTable, pages[i - 1].lastEvaluatedKey)
    {
      assert scans[i] == ScanCall(scanTable, StartKey(pages, 0 + i));
    }
  }

  /** The pages' item counts add up to the number of their items. */
  lemma {:induction false} AllItemsCount(pages: seq<Page>)
    ensures |AllItems(pages)| == TotalItems(pages)
    decreases |pages|
  {
    if pages != [] {
      AllItemsCount(pages[1..]);
    }
  }

  /** Page i's items come first among the items of the pages from i on. */
  lemma {:induction false} PagesFrom(pages: seq<Page>, i: nat)
    requires i < |pages|
    ensures AllItems(pages[i..]) == pages[i].items + AllItems(pages[i + 1..])
    ensures TotalItems(pages[i..]) == |pages[i].items| + TotalItems(pages[i + 1..])
  {
    assert pages[i..][0] == pages[i];
    assert pages[i..][1..] == pages[i + 1..];
  }

  /**
   * What a scan from page i writes: every item of every page from i on, turned into its
   * request, sent exactly once and in scan order; as many requests as those pages' item counts add up to.
   */
  lemma {:induction false} PagesPlanWrites(scanTable: string, writeTable: string, op: WriteOp, pages: seq<Page>, i: nat)
    requires i <= |pages|
    ensures RequestsSent(PagesPlan(scanTable, writeTable, op, pages, i)) == Requests(op, AllItems(pages[i..]))
    ensures |RequestsSent(PagesPlan(scanTable, writeTable, op, pages, i))| == TotalItems(pages[i..])
    decreases |pages| - i
  {
    if i < |pages| {
      var requests := Requests(op, pages[i].items);
      var rest := PagesPlan(scanTable, writeTable, op, pages, i + 1);
      PagesPlanWrites(scanTable, writeTable, op, pages, i + 1);
      OnePageBatches(scanTable, writeTable, op, pages, i);
      FlattenAppend(Chunks(requests), BatchesOf(rest));
      FlattenChunks(requests);
      PagesFrom(pages, i);
      RequestsAppend(op, pages[i].items, AllItems(pages[i + 1..]));
    } else {
      assert pages[i..] == [];
    }
    AllItemsCount(pages[i..]);
  }

  /** No batchWrite call of a scan carries more than 25 requests, or none. */
  lemma {:induction false} PagesPlanBatchSizes(scanTable: string, writeTable: string, op: WriteOp, pages: seq<Page>, i: nat)
    requires i <= |pages|
    ensures forall c :: c in BatchesOf(PagesPlan(scanTable, writeTable, op, pages, i)) ==> 1 <= |c| <= MaxBatch
    decreases |pages| - i
  {
    if i < |pages| {
      var requests := Requests(op, pages[i].items);
      PagesPlanBatchSizes(scanTable, writeTable, op, pages, i + 1);
      OnePageBatches(scanTable, writeTable, op, pages, i);
      ChunkSizes(requests);
      forall c | c in BatchesOf(PagesPlan(scanTable, writeTable, op, pages, i)) ensures 1 <= |c| <= MaxBatch {
        if c !in BatchesOf(PagesPlan(scanTable, writeTable, op, pages, i + 1)) {
          var k :| 0 <= k < |Chunks(requests)| && Chunks(requests)[k] == c;
        }
      }
    }
  }

  /** Every request built for `op` is a put exactly when `op` is Put. */
  lemma {:induction false} RequestKinds(op: WriteOp, items: seq<Item>)
    ensures forall q :: q in Requests(op, items) ==> (q.PutRequest? <==> op.Put?)
  {
  }

  /** The requests sent by the calls actually made are a prefix of those the plan sends. */
  lemma {:induction false} SentPrefix(svc: Service, plan: seq<Event>, base: nat)
    ensures RequestsSent(Issued(svc, plan, base)) <= RequestsSent(plan)
  {
    var made := Issued(svc, plan, base);
    IssuedPrefix(svc, plan, base);
    assert plan == made + plan[|made|..];
    BatchesOfAppend(made, plan[|made|..]);
    FlattenAppend(BatchesOf(made), BatchesOf(plan[|made|..]));
  }

  /** Everything the wipe phase sends is a delete request, whether or not it completes. */
  lemma {:induction false} WipeSendsOnlyDeletes(svc: Service, table: string, base: nat)
    ensures forall q :: q in RequestsSent(Issued(svc, WipePlan(svc, table), base)) ==> q.DeleteRequest?
  {
    var pages := svc.tables(table);
    var op := Delete(svc.keySchemas(table));
    var scans := ScanPlan(table, table, op, pages);
    SentPrefix(svc, WipePlan(svc, table), base);
    BatchesOfAppend([DescribeCall(table)], scans);
    assert [DescribeCall(table)][1..] == [];
    assert BatchesOf([DescribeCall(table)]) == [];
    assert BatchesOf(WipePlan(svc, table)) == BatchesOf(scans);
    PagesPlanWrites(table, table, op, pages, 0);
    RequestKinds(op, AllItems(pages[0..]));
    var sent := RequestsSent(Issued(svc, WipePlan(svc, table), base));
    forall q | q in sent ensures q.DeleteRequest? {
      assert q in RequestsSent(scans);
    }
  }

  /** Everything the copy phase sends is a put request. */
  lemma {:induction false} UpsertSendsOnlyPuts(svc: Service, src: string, dest: string, base: nat)
    ensures forall q :: q in RequestsSent(Issued(svc, UpsertPlan(svc, src, dest), base)) ==> q.PutRequest?
  {
    var pages := svc.tables(src);
    SentPrefix(svc, UpsertPlan(svc, src, dest), base);
    PagesPlanWrites(src, dest, Put, pages, 0);
    RequestKinds(Put, AllItems(pages[0..]));
  }

  /** The calls made for an optional first phase followed by a second: the second only runs once the first completed. */
  lemma {:induction false} TwoPhases(svc: Service, first: seq<Event>, second: seq<Event>, withFirst: bool, base: nat)
    ensures Issued(svc, (if withFirst then first else []) + second, base)
         == if !withFirst then Issued(svc, second, base)
            else if !Completes(svc, first, base) then Issued(svc, first, base)
            else first + Issued(svc, second, base + |first|)
  {
    if withFirst {
      IssuedThen(svc, first, second, base);
    } else {
      assert [] + second == second;
    }
  }

  /**
   * The order of a job: without the flag only the copy runs; with it the wipe runs first,
   * and the copy runs, once, only after the wipe completed.
   */
  lemma {:induction false} JobOrder(svc: Service, src: string, dest: string, deleteAllRecords: bool, base: nat)
    ensures Issued(svc, JobPlan(svc, src, dest, deleteAllRecords), base)
         == if !deleteAllRecords then Issued(svc, UpsertPlan(svc, src, dest), base)
            else if !Completes(svc, WipePlan(svc, dest), base) then Issued(svc, WipePlan(svc, dest), base)
            else WipePlan(svc, dest) + Issued(svc, UpsertPlan(svc, src, dest), base + |WipePlan(svc, dest)|)
  {
    TwoPhases(svc, WipePlan(svc, dest), UpsertPlan(svc, src, dest), deleteAllRecords, base);
  }

  /** The batches and scans of a describe call, the calls after it, and a second phase. */
  lemma {:induction false} DescribeThen(describe: Event, first: seq<Event>, second: seq<Event>)
    requires describe.DescribeCall?
    ensures BatchesOf(([describe] + first) + second) == BatchesOf(first) + BatchesOf(second)
    ensures ScansOf(([describe] + first) + second) == ScansOf(first) + ScansOf(second)
  {
    BatchesOfAppend([describe] + first, second);
    BatchesOfAppend([describe], first);
    assert [describe][1..] == [];
  }

  /** With the flag, the destination's scans all come before the source's, and the source is scanned once through. */
  lemma {:induction false} JobScans(svc: Service, src: string, dest: string)
    ensures ScansOf(JobPlan(svc, src, dest, true))
         == ScansOf(ScanPlan(dest, dest, Delete(svc.keySchemas(dest)), svc.tables(dest)))
          + ScansOf(UpsertPlan(svc, src, dest))
  {
    DescribeThen(DescribeCall(dest), ScanPlan(dest, dest, Delete(svc.keySchemas(dest)), svc.tables(dest)),
                 UpsertPlan(svc, src, dest));
  }

  /** If the wipe was asked for and failed, not a single put request is ever sent. */
  lemma {:induction false} NoPutsAfterFailedWipe(svc: Service, src: string, dest: string, base: nat)
    requires !Completes(svc, WipePlan(svc, dest), base)
    ensures forall q :: q in RequestsSent(Issued(svc, JobPlan(svc, src, dest, true), base)) ==> !q.PutRequest?
  {
    JobOrder(svc, src, dest, true, base);
    WipeSendsOnlyDeletes(svc, dest, base);
  }

  /** Without the flag nothing is deleted: the job sends put requests only. */
  lemma {:induction false} NoDeletesWithoutWipe(svc: Service, src: string, dest: string, base: nat)
    ensures forall q :: q in RequestsSent(Issued(svc, JobPlan(svc, src, dest, false), base)) ==> !q.DeleteRequest?
  {
    JobOrder(svc, src, dest, false, base);
    UpsertSendsOnlyPuts(svc, src, dest, base);
  }

  /**
   * The wipe's first call is describeTable; if it throws, nothing else is called, so no
   * scan or delete is issued before the key schema is known.
   */
  lemma {:induction false} WipeDescribesFirst(svc: Service, table: string, base: nat)
    ensures var made := Issued(svc, WipePlan(svc, table), base);
            && |made| >= 1 && made[0] == DescribeCall(table)
            && (Throws(svc, base, DescribeCall(table)) ==> made == [DescribeCall(table)])
  {
    assert WipePlan(svc, table)[0] == DescribeCall(table);
  }

  /**
   * A successful upsert-mode job, then: the logged total is the sum of the source pages' item
   * counts, and the put requests sent are the source's items, unchanged and in scan order.
   */
  lemma {:induction false} CopyPutsEverySourceItem(svc: Service, src: string, dest: string, base: nat)
    requires Completes(svc, UpsertPlan(svc, src, dest), base)
    ensures var sent := RequestsSent(Issued(svc, JobPlan(svc, src, dest, false), base));
            var items := AllItems(svc.tables(src));
            && |sent| == |items| == TotalItems(svc.tables(src))
            && forall i :: 0 <= i < |sent| ==> sent[i] == PutRequest(items[i])
  {
    var pages := svc.tables(src);
    JobOrder(svc, src, dest, false, base);
    IssuedPrefix(svc, UpsertPlan(svc, src, dest), base);
    PagesPlanWrites(src, dest, Put, pages, 0);
    assert pages[0..] == pages;
  }

  /**
   * The scenario of a job with the flag, whose destination holds 10 items on one page and whose
   * source is empty: one scan of each table, and a single batchWrite, of the 10 delete requests.
   */
  lemma {:induction false} TenItemWipeOfEmptySource(svc: Service, src: string, dest: string, items: seq<Item>)
    requires |items| == 10
    requires svc.tables(dest) == [Page(items, None)] && svc.tables(src) == [Page([], None)]
    ensures BatchesOf(JobPlan(svc, src, dest, true)) == [Requests(Delete(svc.keySchemas(dest)), items)]
    ensures ScansOf(JobPlan(svc, src, dest, true)) == [ScanCall(dest, None), ScanCall(src, None)]
  {
    var op := Delete(svc.keySchemas(dest));
    var wipeScan := ScanPlan(dest, dest, op, svc.tables(dest));
    var copy := UpsertPlan(svc, src, dest);
    OnePageBatches(dest, dest, op, [Page(items, None)], 0);
    assert Chunks(Requests(op, items)) == [Requests(op, items)];
    OnePageBatches(src, dest, Put, [Page([], None)], 0);
    assert Chunks(Requests(Put, [])) == [];
    DescribeThen(DescribeCall(dest), wipeScan, copy);
  }
}
