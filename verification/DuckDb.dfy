/** The single-file backend: one transaction per batch, conflicts ignored row by row. */
module DuckDb {
  import opened Prelude
  import opened Tables
  import opened Preflight
  import opened Lake
  import opened TrinoRuns
  import opened Scripts

  /** INSERT ... ON CONFLICT DO NOTHING on a table with a primary key: each row sees the ones before it. */
  function InsertIgnore<K(==), V>(table: seq<Row<K, V>>, batch: seq<Row<K, V>>): seq<Row<K, V>> {
    if batch == [] then table
    else
      var n := |batch| - 1;
      var t := InsertIgnore(table, batch[..n]);
      if HasKey(t, batch[n].key) then t else t + [batch[n]]
  }

  function LocalCompletion(t: EventTables, items: seq<EventRow>): EventTables {
    EventTables(InsertIgnore(t.raw, items),
                InsertIgnore(t.normalized, Parsed(items, true)),
                InsertIgnore(t.quarantine, Parsed(items, false)))
  }

  function LocalReport(t: EventTables, received: seq<Event>, run: nat): IngestionResult {
    var after := LocalCompletion(t, Items(received, run));
    var committed, quarantined := CountForRun(after.normalized, run), CountForRun(after.quarantine, run);
    IngestionResult(run, |received|, committed, quarantined, |received| - committed - quarantined,
                    if quarantined > 0 then CompletedWithQuarantine else Completed)
  }

  lemma {:induction false} InsertInTwo<K, V>(table: seq<Row<K, V>>, a: seq<Row<K, V>>, b: seq<Row<K, V>>)
    ensures InsertIgnore(table, a + b) == InsertIgnore(InsertIgnore(table, a), b)
  {
    if b == [] {
      assert a + b == a;
    } else {
      var n := |b| - 1;
      assert (a + b)[..|a + b| - 1] == a + b[..n];
      InsertInTwo(table, a, b[..n]);
    }
  }

  /** Row by row or against the table as it was: the same, as long as the batch repeats no key. */
  lemma {:induction false} InsertIsMerge<K(!new), V(!new)>(table: seq<Row<K, V>>, batch: seq<Row<K, V>>)
    requires Unique(batch)
    ensures InsertIgnore(table, batch) == Merge(table, batch)
  {
    if batch == [] {
      assert table + [] == table;
    } else {
      hide Merge, Unique;
      var n := |batch| - 1;
      var front, x := batch[..n], batch[n];
      assert batch == front + [x] == [] + front + [x];
      UniquePrefix(front, [x]);
      InsertIsMerge(table, front);
      MergeSnoc(table, front, x);
      MergeKeys(table, front);
      LastKeyNew([], front, x);
      HasKeyIsKey(Merge(table, front), x.key);
    }
  }

  lemma InsertSnoc<K, V>(table: seq<Row<K, V>>, batch: seq<Row<K, V>>, x: Row<K, V>)
    ensures var t := InsertIgnore(table, batch);
            InsertIgnore(table, batch + [x]) == if HasKey(t, x.key) then t else t + [x]
  {
    hide HasKey;
    assert (batch + [x])[..|batch|] == batch;
  }

  lemma NothingInserted<K, V>(k: K)
    ensures InsertIgnore<K, V>([], []) == [] && !HasKey<K, V>([], k)
  {
  }

  /** A repeated key inside one batch is inserted once here, but twice by a MERGE. */
  lemma RepeatedKey<K(!new), V(!new)>(x: Row<K, V>)
    ensures |InsertIgnore([], [x, x])| == 1 && |Merge([], [x, x])| == 2
  {
    hide Merge, InsertIgnore, HasKey;
    Copies(x);
    RepeatedInMerge(x);
    NothingInserted<K, V>(x.key);
    InsertSnoc([], [], x);
    InsertSnoc([], [x], x);
  }

  /**
   * From equal tables the transaction leaves the same three tables and reports the same numbers and status as an
   * uninterrupted Trino run.
   */
  lemma LocalRefinesTrino(t: EventTables, received: seq<Event>, run: nat)
    ensures LocalCompletion(t, Items(received, run)) == Completion(t, Items(received, run))
    ensures LocalReport(t, received, run) == Report(t, received, run)
  {
    hide Items, Parsed, CountForRun, Merge, InsertIgnore, Unique;
    var items := Items(received, run);
    ItemsOwned(received, run);
    ParsedRows(items, true);
    ParsedRows(items, false);
    InsertIsMerge(t.raw, items);
    InsertIsMerge(t.normalized, Parsed(items, true));
    InsertIsMerge(t.quarantine, Parsed(items, false));
  }

  // ---------------------------------------------------------------- the partition of raw ids

  /** Raw ids are the disjoint union of normalized and quarantined ids. */
  ghost predicate Partitioned(t: EventTables) {
    && Keys(t.raw) == Keys(t.normalized) + Keys(t.quarantine)
    && Keys(t.normalized) !! Keys(t.quarantine)
  }

  /**
   * A batch keeps the partition exactly when it parses no id that is in quarantine and rejects no id that is
   * normalized, as a changed parser may.
   */
  lemma PartitionKept(t: EventTables, items: seq<EventRow>, run: nat)
    requires Partitioned(t) && Owned(items, run)
    ensures Partitioned(Completion(t, items)) <==>
              && Keys(Parsed(items, true)) !! Keys(t.quarantine)
              && Keys(Parsed(items, false)) !! Keys(t.normalized)
  {
    hide Merge, Parsed, Unique;
    var valid, invalid := Parsed(items, true), Parsed(items, false);
    MergeKeys(t.raw, items);
    MergeKeys(t.normalized, valid);
    MergeKeys(t.quarantine, invalid);
    ItemsSplit(items);
  }

  /** The items split by parse result into two disjoint sets of ids. */
  lemma ItemsSplit(items: seq<EventRow>)
    requires Unique(items)
    ensures Keys(items) == Keys(Parsed(items, true)) + Keys(Parsed(items, false))
    ensures Keys(Parsed(items, true)) !! Keys(Parsed(items, false))
  {
    hide Parsed;
    ParsedRows(items, true);
    ParsedRows(items, false);
    forall a, b | a in Parsed(items, true) && b in Parsed(items, false) ensures a.key != b.key {
      var i :| 0 <= i < |items| && items[i] == a;
      var j :| 0 <= j < |items| && items[j] == b;
      assert i != j;
      assert if i < j then items[i].key != items[j].key else items[j].key != items[i].key;
    }
    forall r | r in items ensures r in Parsed(items, true) || r in Parsed(items, false) { }
  }

  /** With a parser that decides by event id, a batch keeps the partition, and each side keeps to its kind of id. */
  lemma BatchKeepsPartition(t: EventTables, received: seq<Event>, run: nat, good: set<string>)
    requires Partitioned(t) && Separated(t, good) && ParsesAs(received, good)
    ensures var after := LocalCompletion(t, Items(received, run));
            Partitioned(after) && Separated(after, good)
  {
    hide Items, Parsed, Merge, LocalCompletion, Unique;
    var items := Items(received, run);
    ItemsOwned(received, run);
    LocalRefinesTrino(t, received, run);
    KeysParse(items, received, good);
    MergeKeys(t.normalized, Parsed(items, true));
    MergeKeys(t.quarantine, Parsed(items, false));
    PartitionKept(t, items, run);
  }

  lemma KeysParse(items: seq<EventRow>, received: seq<Event>, good: set<string>)
    requires ParsesAs(received, good)
    requires forall r :: r in items ==> r.value.event in received && r.key == r.value.event.id
    ensures Keys(Parsed(items, true)) <= good && Keys(Parsed(items, false)) !! good
  {
    hide Parsed;
    ParsedRows(items, true);
    ParsedRows(items, false);
  }

  /** One call of ingest_events: the batch, its run id, and whether the transaction committed. */
  datatype Attempt = Attempt(received: seq<Event>, run: nat, committed: bool)

  /** The tables after a series of calls, failed ones included. */
  function After(t: EventTables, attempts: seq<Attempt>): EventTables {
    if attempts == [] then t
    else
      var n := |attempts| - 1;
      var before, last := After(t, attempts[..n]), attempts[n];
      if last.committed then LocalCompletion(before, Items(last.received, last.run)) else before
  }

  /** In every committed state raw ids are the disjoint union of normalized and quarantined ids. */
  lemma {:induction false} EveryStatePartitioned(t: EventTables, attempts: seq<Attempt>, good: set<string>, n: nat)
    requires n <= |attempts| && Partitioned(t) && Separated(t, good)
    requires forall a :: a in attempts ==> ParsesAs(a.received, good)
    ensures Partitioned(After(t, attempts[..n])) && Separated(After(t, attempts[..n]), good)
    decreases n
  {
    hide Partitioned, Separated, ParsesAs, Items, LocalCompletion;
    if n > 0 {
      var last := attempts[n - 1];
      EveryStatePartitioned(t, attempts, good, n - 1);
      assert attempts[..n][..n - 1] == attempts[..n - 1];
      BatchKeepsPartition(After(t, attempts[..n - 1]), last.received, last.run, good);
    }
  }

  lemma EmptyPartitioned(good: set<string>)
    ensures Partitioned(EventTables([], [], [])) && Separated(EventTables([], [], []), good)
  {
  }

  /** The same id rejected by one parser version and parsed by the next ends up on both sides. */
  lemma ParserUpgradeSplits(id: string, raw: seq<Value>, normalized: seq<Value>, quarantine: seq<Value>)
    ensures
      var old_, new_ := Event(id, false, raw, normalized, quarantine), Event(id, true, raw, normalized, quarantine);
      var first := LocalCompletion(EventTables([], [], []), Items([old_], 0));
      var second := LocalCompletion(first, Items([new_], 1));
      && Partitioned(first) && !Partitioned(second)
      && id in Keys(second.normalized) && id in Keys(second.quarantine)
  {
    hide Parsed, Items, LocalCompletion, Merge, Unique;
    var old_, new_ := Event(id, false, raw, normalized, quarantine), Event(id, true, raw, normalized, quarantine);
    var nothing := EventTables([], [], []);
    LocalRefinesTrino(nothing, [old_], 0);
    var first := Completion(nothing, Items([old_], 0));
    LocalRefinesTrino(first, [new_], 1);
    LoneKeys(old_, 0);
    LoneKeys(new_, 1);
    forall k: Kind
      ensures Keys(Completion(nothing, Items([old_], 0)).Of(k))
                == Keys(nothing.Of(k)) + Keys(RowsFor(k, Items([old_], 0)))
      ensures Keys(Completion(first, Items([new_], 1)).Of(k)) == Keys(first.Of(k)) + Keys(RowsFor(k, Items([new_], 1)))
    {
      CompletionKeys(nothing, Items([old_], 0), k);
      CompletionKeys(first, Items([new_], 1), k);
    }
    assert forall t: EventTables ::
        t.raw == t.Of(Raw) && t.normalized == t.Of(Normalized) && t.quarantine == t.Of(Quarantine);
  }

  lemma LoneKeys(e: Event, run: nat)
    ensures Keys(Items([e], run)) == {e.id}
    ensures Keys(Parsed(Items([e], run), true)) == if e.parseSuccess then {e.id} else {}
    ensures Keys(Parsed(Items([e], run), false)) == if e.parseSuccess then {} else {e.id}
  {
    hide Items, Parsed;
    var items := Items([e], run);
    ItemsOwned([e], run);
    assert Keys(items) == {e.id};
    ParsedRows(items, true);
    ParsedRows(items, false);
    var r :| r in items && r.key == e.id;
    assert r.value.event == e;
    assert r in Parsed(items, e.parseSuccess);
  }

  // ---------------------------------------------------------------- the backend

  lemma NoRowInserted(table: seq<EventRow>, rows: seq<EventRow>)
    ensures InsertIgnore(table, rows[..0]) == table
  {
    assert rows[..0] == [];
  }

  /** How many statements insert n rows. */
  function Chunks(n: nat, batchSize: nat): nat
    requires batchSize > 0
  {
    if n == 0 then 0 else if n <= batchSize then 1 else 1 + Chunks(n - batchSize, batchSize)
  }

  /** From the first insert to COMMIT: the rows, two counts, the audit row, COMMIT itself. */
  function Statements(items: seq<EventRow>, batchSize: nat): nat
    requires batchSize > 0
  {
    Chunks(|items|, batchSize) + Chunks(|Parsed(items, true)|, batchSize)
    + Chunks(|Parsed(items, false)|, batchSize) + 4
  }

  class DuckDbBackend {
    const batchSize: nat
    var store: Store
    var issued: nat
    var script: seq<bool>  // whether the next statements succeed; beyond it they do

    constructor (batchSize: nat, tables: EventTables, issued: nat, script: seq<bool>)
      ensures this.batchSize == batchSize && store == Store(tables, map[]) && this.issued == issued
              && this.script == script
    {
      this.batchSize, this.store, this.issued, this.script := batchSize, Store(tables, map[]), issued, script;
    }

    method Execute() returns (ok: bool)
      modifies this`script
      ensures ok == Works(old(script), 0) && script == Left(old(script), 1)
    {
      ok := true;
      if script != [] {
        ok := script[0];
        script := script[1..];
      }
    }

    /** _insert_records, on the table as the open transaction sees it. */
    method InsertRecords(table: seq<EventRow>, rows: seq<EventRow>) returns (table': seq<EventRow>, ok: bool)
      requires batchSize > 0
      modifies this`script
      ensures ok ==> table' == InsertIgnore(table, rows)
      ensures Spent(old(script), script, Chunks(|rows|, batchSize), ok)
    {
      hide InsertIgnore;
      table' := table;
      var i := 0;
      ghost var used := 0;
      NoRowInserted(table, rows);
      NothingSpent(script);
      while i < |rows|
        invariant i <= |rows| && table' == InsertIgnore(table, rows[..i])
        invariant used + Chunks(|rows| - i, batchSize) == Chunks(|rows|, batchSize)
        invariant Spent(old(script), script, used, true)
      {
        var next := if i + batchSize <= |rows| then i + batchSize else |rows|;
        ghost var before := script;
        ok := Execute();
        OneSpent(before, script, ok);
        SpentMore(old(script), before, script, used, 1, ok);
        if !ok {
          SpentFails(old(script), script, used + 1, Chunks(|rows|, batchSize));
          return;
        }
        used := used + 1;
        InsertInTwo(table, rows[..i], rows[i..next]);
        assert rows[..i] + rows[i..next] == rows[..next];
        table' := InsertIgnore(table', rows[i..next]);
        i := next;
      }
      assert rows[..|rows|] == rows;
      ok := true;
    }

    /** One statement more, unless one before it failed. */
    method ExecuteNext(ghost before: seq<bool>, ghost n: nat) returns (ok: bool)
      requires Spent(before, script, n, true)
      modifies this`script
      ensures Spent(before, script, n + 1, ok)
    {
      ghost var mid := script;
      ok := Execute();
      OneSpent(mid, script, ok);
      SpentMore(before, mid, script, n, 1, ok);
    }

    /** Everything between BEGIN and COMMIT, on working copies of the tables. */
    method Transact(received: seq<Event>, run: nat, items: seq<EventRow>)
        returns (committed': Option<(EventTables, IngestionResult)>)
      requires batchSize > 0 && items == Items(received, run)
      modifies this`script
      ensures committed'.Some? ==>
                committed'.value == (LocalCompletion(store.tables, items), LocalReport(store.tables, received, run))
      ensures Spent(old(script), script, Statements(items, batchSize), committed'.Some?)
    {
      hide Items, Parsed, CountForRun, InsertIgnore, Spent, Chunks;
      ghost var start, total := script, Statements(items, batchSize);
      var raw, ok := InsertRecords(store.tables.raw, items);
      ghost var n, mid := Chunks(|items|, batchSize), script;
      if !ok { SpentFails(start, script, n, total); return None; }
      var normalized;
      normalized, ok := InsertRecords(store.tables.normalized, Parsed(items, true));
      SpentMore(start, mid, script, n, Chunks(|Parsed(items, true)|, batchSize), ok);
      n, mid := n + Chunks(|Parsed(items, true)|, batchSize), script;
      if !ok { SpentFails(start, script, n, total); return None; }
      var quarantine;
      quarantine, ok := InsertRecords(store.tables.quarantine, Parsed(items, false));
      SpentMore(start, mid, script, n, Chunks(|Parsed(items, false)|, batchSize), ok);
      n := n + Chunks(|Parsed(items, false)|, batchSize);
      if !ok { SpentFails(start, script, n, total); return None; }
      ok := ExecuteNext(start, n);
      if !ok { SpentFails(start, script, n + 1, total); return None; }
      var committed := CountForRun(normalized, run);
      ok := ExecuteNext(start, n + 1);
      if !ok { SpentFails(start, script, n + 2, total); return None; }
      var quarantined := CountForRun(quarantine, run);
      ok := ExecuteNext(start, n + 2);  // the audit row, inside the transaction
      if !ok { SpentFails(start, script, n + 3, total); return None; }
      ok := ExecuteNext(start, n + 3);  // COMMIT
      if !ok { return None; }
      var status := if quarantined > 0 then CompletedWithQuarantine else Completed;
      return Some((EventTables(raw, normalized, quarantine),
                   IngestionResult(run, |received|, committed, quarantined, |received| - committed - quarantined,
                                   status)));
    }

    /** BEGIN, the transaction, and after a failure in it ROLLBACK and the insertion of a FAILED audit row. */
    method Commit(received: seq<Event>, run: nat, items: seq<EventRow>)
        returns (outcome: Option<(EventTables, IngestionResult)>, recorded: bool)
      requires batchSize > 0 && items == Items(received, run)
      modifies this`script
      ensures outcome.Some? ==>
                outcome.value == (LocalCompletion(store.tables, items), LocalReport(store.tables, received, run))
      ensures outcome.Some? <==> AllWork(old(script), 1 + Statements(items, batchSize))
      ensures outcome.None? ==>
                var k := FirstFailure(old(script));
                recorded <==> k > 0 && Works(old(script), k + 1) && Works(old(script), k + 2)
    {
      hide Items, LocalCompletion, LocalReport, AllWork, Left, FirstFailure, Statements;
      ghost var start, n := script, Statements(items, batchSize);
      NothingSpent(script);
      var begun := ExecuteNext(script, 0);
      if !begun {
        FailsWithin(start, 1);
        SpentFails(start, script, 1, 1 + n);
        return None, false;
      }
      ghost var mid := script;
      outcome := Transact(received, run, items);
      SpentMore(start, mid, script, 1, n, outcome.Some?);
      recorded := false;
      if outcome.None? {
        FailsWithin(start, 1 + n);
        FailedAfterFirst(start);
        LeftLeft(start, FirstFailure(start) + 1, 1);
        LeftLeft(start, FirstFailure(start) + 2, 1);
        var rolledBack := Execute();
        if rolledBack { recorded := Execute(); }
      }
    }

    /**
     * ingest_events: all of a batch, when every statement from BEGIN to COMMIT succeeds, or none of it. After a
     * failure there is a FAILED audit row exactly when BEGIN was not what failed, and ROLLBACK and the insertion
     * of that row succeed.
     */
    method IngestEvents(received: seq<Event>) returns (r: Result<IngestionResult, IngestError>)
      requires batchSize > 0 && forall run :: run in store.runs ==> run < issued
      modifies this
      ensures forall run :: run in store.runs ==> run < issued
      ensures received == [] ==> r == Success(EMPTY) && store == old(store) && issued == old(issued)
      ensures r == Result.Failure(BlankEventId) <==> exists e :: e in received && Unnamed(e)
      ensures AnyBlank(received) ==> r == Result.Failure(BlankEventId) && store == old(store) && issued == old(issued)
      ensures received != [] && !AnyBlank(received) ==>
                var run, items := old(issued), Items(received, old(issued));
                && issued == run + 1
                && OthersKept(run, old(store).runs, store.runs)
                && (r.Success? ==>
                      && store.tables == LocalCompletion(old(store).tables, items)
                      && r.value == LocalReport(old(store).tables, received, run)
                      && run in store.runs
                      && store.runs[run] == RunRow(r.value.status, |received|, r.value.committed, r.value.quarantined,
                                                   r.value.duplicates))
                && (r.Failure? ==>
                      && store.tables == old(store).tables
                      && (run in store.runs ==> store.runs[run] == RunRow(Failed, |received|, 0, 0, 0))
                      && var k := FirstFailure(old(script));
                         (run in store.runs <==> k > 0 && Works(old(script), k + 1) && Works(old(script), k + 2)))
                && (r.Success? <==> AllWork(old(script), 1 + Statements(items, batchSize)))
      ensures forall good: set<string> ::
                Partitioned(old(store).tables) && Separated(old(store).tables, good) && ParsesAs(received, good) ==>
                Partitioned(store.tables) && Separated(store.tables, good)
    {
      hide Items, LocalCompletion, LocalReport, Partitioned, Separated, ParsesAs, Unnamed, AnyBlank;
      AnyBlankExact(received);
      forall good: set<string> | Partitioned(store.tables) && Separated(store.tables, good) && ParsesAs(received, good)
        ensures Partitioned(LocalCompletion(store.tables, Items(received, issued)))
             && Separated(LocalCompletion(store.tables, Items(received, issued)), good)
      {
        BatchKeepsPartition(store.tables, received, issued, good);
      }
      if received == [] {
        return Success(EMPTY);
      }
      if AnyBlank(received) {
        return Result.Failure(BlankEventId);
      }
      var run := issued;
      issued := issued + 1;
      var outcome, recorded := Commit(received, run, Items(received, run));
      if outcome.Some? {
        var (tables, result) := outcome.value;
        store := Store(tables, store.runs[run := RunRow(result.status, |received|, result.committed,
                                                        result.quarantined, result.duplicates)]);
        r := Success(result);
      } else {
        if recorded {
          store := store.(runs := store.runs[run := RunRow(Failed, |received|, 0, 0, 0)]);
        }
        r := Result.Failure(RunFailed);
      }
    }
  }
}
