/**
 * The collaborators the job drives: the document client `db` (scan, batchWrite), the client
 * that answers describeTable, and the progress bar. They are modelled by the calls made on
 * them, recorded in order, and by a scripted service that answers those calls.
 */
module Storage {
  import opened Items
  import Chunking

  /** One call the job makes on a collaborator. */
  datatype Event =
    | DescribeCall(table: string)
    | ScanCall(table: string, exclusiveStartKey: Option<Key>)
    | BatchWriteCall(table: string, requests: seq<WriteRequest>)
    | InitBar(total: nat, scanBatch: nat)
    | UpdateBar(current: nat)

  /**
   * The storage service as the job sees it: the pages a full scan of each table returns,
   * each table's key-schema attribute names, and the positions in the call sequence at which
   * a call throws: a storage call (network failure, missing table, exhausted retries, ...) or a
   * progress-bar call (drawing the bar clears and repositions the line, which throws when
   * standard output is not a terminal).
   */
  datatype Service = Service(tables: string -> seq<Page>, keySchemas: string -> seq<string>, failAt: set<nat>)

  /**
   * The scan protocol: at least one page, only the last page lacks a LastEvaluatedKey,
   * and no two pages end at the same key.
   */
  ghost predicate ValidPages(pages: seq<Page>) {
    && |pages| > 0
    && (forall i :: 0 <= i < |pages| ==> (pages[i].lastEvaluatedKey.None? <==> i == |pages| - 1))
    && (forall i, j :: 0 <= i < j < |pages| ==> pages[i].lastEvaluatedKey != pages[j].lastEvaluatedKey)
  }

  ghost predicate ValidService(svc: Service) {
    forall t {:trigger ValidPages(svc.tables(t))} :: ValidPages(svc.tables(t))
  }

  /** The ExclusiveStartKey that asks for page i: none for the first, page i-1's key otherwise. */
  function StartKey(pages: seq<Page>, i: nat): Option<Key>
    requires i <= |pages|
  {
    if i == 0 then None else pages[i - 1].lastEvaluatedKey
  }

  /** The index of the page that follows the page ending at `key`, searching from `from`. */
  function PageAfter(pages: seq<Page>, key: Key, from: nat): (r: Option<nat>)
    ensures r.Some? ==> from < r.value < |pages| && pages[r.value - 1].lastEvaluatedKey == Some(key)
    decreases |pages| - from
  {
    if from + 1 >= |pages| then None
    else if pages[from].lastEvaluatedKey == Some(key) then Some(from + 1)
    else PageAfter(pages, key, from + 1)
  }

  /** The page a scan with the given ExclusiveStartKey returns; none for a key the service never issued. */
  function ScanPage(pages: seq<Page>, exclusiveStartKey: Option<Key>): (r: Option<nat>)
    ensures r.Some? ==> r.value < |pages|
  {
    if exclusiveStartKey.None? then (if |pages| > 0 then Some(0) else None)
    else PageAfter(pages, exclusiveStartKey.value, 0)
  }

  lemma {:induction false} PageAfterFinds(pages: seq<Page>, key: Key, from: nat, p: nat)
    requires from <= p && p + 1 < |pages|
    requires pages[p].lastEvaluatedKey == Some(key)
    requires forall q :: from <= q < p ==> pages[q].lastEvaluatedKey != Some(key)
    ensures PageAfter(pages, key, from) == Some(p + 1)
    decreases p - from
  {
    if from < p {
      PageAfterFinds(pages, key, from + 1, p);
    }
  }

  /** Handing back page i's LastEvaluatedKey yields page i+1: the service answers a correctly threaded scan with the next page. */
  lemma {:induction false} ScanPageAt(pages: seq<Page>, i: nat)
    requires ValidPages(pages) && i < |pages|
    ensures ScanPage(pages, StartKey(pages, i)) == Some(i)
  {
    if i > 0 {
      var key := pages[i - 1].lastEvaluatedKey.value;
      PageAfterFinds(pages, key, 0, i - 1);
    }
  }

  /**
   * What a scan of a table of a well-behaved service sees: at least one page, page i served
   * for page i's start key, and only the last page without a LastEvaluatedKey.
   */
  lemma {:induction false} PageServed(svc: Service, table: string, i: nat)
    requires ValidService(svc)
    ensures var pages := svc.tables(table);
            && |pages| > 0
            && (i < |pages| ==>
                  && ScanPage(pages, StartKey(pages, i)) == Some(i)
                  && (pages[i].lastEvaluatedKey.None? <==> i == |pages| - 1))
  {
    var pages := svc.tables(table);
    assert ValidPages(pages);
    if i < |pages| {
      ScanPageAt(pages, i);
    }
  }

  /** Requests the service refuses whatever the failure script says. */
  predicate Rejects(svc: Service, e: Event) {
    match e
    case ScanCall(t, start) => ScanPage(svc.tables(t), start).None?
    case BatchWriteCall(_, reqs) => !(1 <= |reqs| <= Chunking.MaxBatch)
    case _ => false
  }

  /** Whether the call made at position k of the call sequence throws. */
  predicate Throws(svc: Service, k: nat, e: Event) {
    k in svc.failAt || Rejects(svc, e)
  }

  /** No call of `plan`, made from position `base` on, throws. */
  ghost predicate Completes(svc: Service, plan: seq<Event>, base: nat)
    decreases |plan|
  {
    plan == [] || (!Throws(svc, base, plan[0]) && Completes(svc, plan[1..], base + 1))
  }

  /**
   * The calls actually made when the job sets out to make `plan` from position `base` and
   * the first call that throws ends it: a prefix of the plan, the whole plan when nothing
   * throws, and otherwise a prefix that ends with the one call that threw.
   */
  ghost function Issued(svc: Service, plan: seq<Event>, base: nat): seq<Event>
    decreases |plan|
  {
    if plan == [] then []
    else if Throws(svc, base, plan[0]) then [plan[0]]
    else [plan[0]] + Issued(svc, plan[1..], base + 1)
  }

  /** The calls made are a prefix of the plan, and the whole plan when nothing throws. */
  lemma {:induction false} IssuedPrefix(svc: Service, plan: seq<Event>, base: nat)
    ensures Issued(svc, plan, base) <= plan
    ensures Completes(svc, plan, base) ==> Issued(svc, plan, base) == plan
    decreases |plan|
  {
    if plan != [] && !Throws(svc, base, plan[0]) {
      IssuedPrefix(svc, plan[1..], base + 1);
      assert [plan[0]] + plan[1..] == plan;
    }
  }

  /**
   * When some call of the plan throws, it is the last call made, and every call made
   * before it completed: a throw stops all further calls.
   */
  lemma {:induction false} IssuedEndsAtThrow(svc: Service, plan: seq<Event>, base: nat)
    requires !Completes(svc, plan, base)
    ensures var r := Issued(svc, plan, base);
            |r| > 0 && Throws(svc, base + |r| - 1, r[|r| - 1]) && Completes(svc, r[..|r| - 1], base)
    decreases |plan|
  {
    if !Throws(svc, base, plan[0]) {
      var rest := Issued(svc, plan[1..], base + 1);
      IssuedEndsAtThrow(svc, plan[1..], base + 1);
      var r := [plan[0]] + rest;
      assert r[|r| - 1] == rest[|rest| - 1];
      assert r[..|r| - 1] == [plan[0]] + rest[..|rest| - 1];
      assert ([plan[0]] + rest[..|rest| - 1])[1..] == rest[..|rest| - 1];
    }
  }

  /** A plan completes exactly when both of its parts do. */
  lemma {:induction false} CompletesSplit(svc: Service, a: seq<Event>, b: seq<Event>, base: nat)
    ensures Completes(svc, a + b, base) <==> Completes(svc, a, base) && Completes(svc, b, base + |a|)
    decreases |a|
  {
    if a == [] {
      assert a + b == b;
    } else {
      assert (a + b)[0] == a[0];
      assert (a + b)[1..] == a[1..] + b;
      CompletesSplit(svc, a[1..], b, base + 1);
    }
  }

  /** After a part of the plan that completed, the calls made are that part followed by what the rest yields. */
  lemma {:induction false} IssuedSplit(svc: Service, a: seq<Event>, b: seq<Event>, base: nat)
    requires Completes(svc, a, base)
    ensures Issued(svc, a + b, base) == a + Issued(svc, b, base + |a|)
    decreases |a|
  {
    if a == [] {
      assert a + b == b;
    } else {
      assert (a + b)[0] == a[0];
      assert (a + b)[1..] == a[1..] + b;
      IssuedSplit(svc, a[1..], b, base + 1);
      Regroup([a[0]], a[1..], Issued(svc, b, base + |a|));
      assert [a[0]] + a[1..] == a;
    }
  }

  /** Once a part of the plan throws, nothing after it is ever called. */
  lemma {:induction false} IssuedCut(svc: Service, p: seq<Event>, rest: seq<Event>, base: nat)
    requires !Completes(svc, p, base)
    ensures Issued(svc, p + rest, base) == Issued(svc, p, base)
    ensures !Completes(svc, p + rest, base)
    decreases |p|
  {
    assert (p + rest)[0] == p[0];
    CompletesSplit(svc, p, rest, base);
    if !Throws(svc, base, p[0]) {
      assert (p + rest)[1..] == p[1..] + rest;
      IssuedCut(svc, p[1..], rest, base + 1);
    }
  }

  lemma Regroup(x: seq<Event>, y: seq<Event>, z: seq<Event>)
    ensures x + (y + z) == x + y + z
  {
  }

  /** A single call is made whatever happens, and it completes exactly when it does not throw. */
  lemma {:induction false} OneCall(svc: Service, e: Event, base: nat)
    ensures Issued(svc, [e], base) == [e]
    ensures Completes(svc, [e], base) <==> !Throws(svc, base, e)
  {
    assert [e][1..] == [];
  }

  /**
   * The calls made for a plan in two parts: the first part's calls, followed by the second
   * part's only if the first part completed; the whole completes when both parts do.
   */
  lemma {:induction false} IssuedThen(svc: Service, a: seq<Event>, b: seq<Event>, base: nat)
    ensures Issued(svc, a + b, base) == if Completes(svc, a, base) then a + Issued(svc, b, base + |a|) else Issued(svc, a, base)
    ensures Completes(svc, a + b, base) <==> Completes(svc, a, base) && Completes(svc, b, base + |a|)
  {
    CompletesSplit(svc, a, b, base);
    if Completes(svc, a, base) {
      IssuedSplit(svc, a, b, base);
    } else {
      IssuedCut(svc, a, b, base);
    }
  }

  /**
   * A job that set out to make the calls of `whole` from position `base`, after the calls
   * `start`, has made the calls `trace` so far and has the calls `remaining` left to make:
   * what the whole plan issues is what the remaining part issues after `trace`, and the
   * whole plan completes exactly when the remaining part does.
   */
  ghost predicate Resumes(svc: Service, whole: seq<Event>, base: nat, start: seq<Event>,
                          trace: seq<Event>, remaining: seq<Event>)
  {
    && start + Issued(svc, whole, base) == trace + Issued(svc, remaining, |trace|)
    && (Completes(svc, whole, base) <==> Completes(svc, remaining, |trace|))
  }

  /** Nothing made yet: the remaining part is the whole plan. */
  lemma {:induction false} Started(svc: Service, whole: seq<Event>, start: seq<Event>)
    ensures Resumes(svc, whole, |start|, start, start, whole)
  {
  }

  /**
   * One step of a job working through a plan: with `a + b` remaining, the step attempts `a`,
   * leaving the calls `after`, with `ok` saying whether `a` completed. If it did, `b` remains;
   * if not, the calls made are all the whole plan issues, and the whole plan did not complete.
   */
  lemma {:induction false} Continue(svc: Service, whole: seq<Event>, base: nat, start: seq<Event>,
                                    trace: seq<Event>, a: seq<Event>, b: seq<Event>, after: seq<Event>, ok: bool)
    requires Resumes(svc, whole, base, start, trace, a + b)
    requires after == trace + Issued(svc, a, |trace|) && (ok <==> Completes(svc, a, |trace|))
    ensures ok ==> Resumes(svc, whole, base, start, after, b)
    ensures !ok ==> after == start + Issued(svc, whole, base) && !Completes(svc, whole, base)
  {
    IssuedThen(svc, a, b, |trace|);
    if ok {
      IssuedPrefix(svc, a, |trace|);
      Regroup(trace, a, Issued(svc, b, |trace| + |a|));
    }
  }

  /** Nothing remains: the calls made are exactly what the whole plan issues, and it completed. */
  lemma {:induction false} Finished(svc: Service, whole: seq<Event>, base: nat, start: seq<Event>, trace: seq<Event>)
    requires Resumes(svc, whole, base, start, trace, [])
    ensures trace == start + Issued(svc, whole, base) && Completes(svc, whole, base)
  {
    assert trace + [] == trace;
  }

  /**
   * The collaborators of one job. `trace` is every call made on them, in order; `issued`
   * counts them, so that the failure script can be consulted.
   */
  class Environment {
    const svc: Service
    ghost var trace: seq<Event>
    var issued: nat

    ghost predicate Valid()
      reads this
    {
      issued == |trace| && ValidService(svc)
    }

    constructor (svc: Service)
      requires ValidService(svc)
      ensures Valid() && this.svc == svc && trace == []
    {
      this.svc := svc;
      trace := [];
      issued := 0;
    }

    /** ddb.describeTable: the table's key-schema attribute names, or a throw. */
    method DescribeTable(table: string) returns (r: Result<seq<string>>)
      requires Valid()
      modifies this
      ensures Valid() && trace == old(trace) + [DescribeCall(table)]
      ensures r == if Throws(svc, old(issued), DescribeCall(table)) then Threw else Ok(svc.keySchemas(table))
    {
      var throws := Throws(svc, issued, DescribeCall(table));
      trace := trace + [DescribeCall(table)];
      issued := issued + 1;
      r := if throws then Threw else Ok(svc.keySchemas(table));
    }

    /** db.scan: the page the ExclusiveStartKey designates, or a throw. */
    method Scan(table: string, exclusiveStartKey: Option<Key>) returns (r: Result<Page>)
      requires Valid()
      modifies this
      ensures Valid() && trace == old(trace) + [ScanCall(table, exclusiveStartKey)]
      ensures r == if Throws(svc, old(issued), ScanCall(table, exclusiveStartKey)) then Threw
                   else Ok(svc.tables(table)[ScanPage(svc.tables(table), exclusiveStartKey).value])
    {
      var throws := Throws(svc, issued, ScanCall(table, exclusiveStartKey));
      trace := trace + [ScanCall(table, exclusiveStartKey)];
      issued := issued + 1;
      if throws {
        r := Threw;
      } else {
        var pages := svc.tables(table);
        r := Ok(pages[ScanPage(pages, exclusiveStartKey).value]);
      }
    }

    /** db.batchWrite: succeeds (its response is never inspected) or throws. */
    method BatchWrite(table: string, requests: seq<WriteRequest>) returns (ok: bool)
      requires Valid()
      modifies this
      ensures Valid() && trace == old(trace) + [BatchWriteCall(table, requests)]
      ensures ok == !Throws(svc, old(issued), BatchWriteCall(table, requests))
    {
      ok := !Throws(svc, issued, BatchWriteCall(table, requests));
      trace := trace + [BatchWriteCall(table, requests)];
      issued := issued + 1;
    }

    /**
     * progressBar.init(total, `Progress of scan batch ${scanBatch}: `), which draws the empty bar:
     * done, or a throw.
     */
    method ProgressInit(total: nat, scanBatch: nat) returns (ok: bool)
      requires Valid()
      modifies this
      ensures Valid() && trace == old(trace) + [InitBar(total, scanBatch)]
      ensures ok == !Throws(svc, old(issued), InitBar(total, scanBatch))
    {
      ok := !Throws(svc, issued, InitBar(total, scanBatch));
      trace := trace + [InitBar(total, scanBatch)];
      issued := issued + 1;
    }

    /** progressBar.update(current), which redraws the bar: done, or a throw. */
    method ProgressUpdate(current: nat) returns (ok: bool)
      requires Valid()
      modifies this
      ensures Valid() && trace == old(trace) + [UpdateBar(current)]
      ensures ok == !Throws(svc, old(issued), UpdateBar(current))
    {
      ok := !Throws(svc, issued, UpdateBar(current));
      trace := trace + [UpdateBar(current)];
      issued := issued + 1;
    }
  }
}
