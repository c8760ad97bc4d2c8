/** Events, their rows in the three event tables, and the audit rows of ingestion runs. */
module Lake {
  import opened Tables
  import opened Batcher
  import opened Preflight

  /** A normalized event: its id, whether it parsed, and its column values per table. */
  datatype Event = Event(id: string, parseSuccess: bool, raw: seq<Value>, normalized: seq<Value>,
                         quarantine: seq<Value>)

  /** An event with the run that wants to insert it; replace(event, ingestion_run_id=run_id). */
  datatype Stamped = Stamped(event: Event, run: nat)

  type EventRow = Row<string, Stamped>

  datatype Kind = Raw | Normalized | Quarantine

  datatype EventTables = EventTables(raw: seq<EventRow>, normalized: seq<EventRow>, quarantine: seq<EventRow>) {
    function Of(k: Kind): seq<EventRow> {
      match k
      case Raw => raw
      case Normalized => normalized
      case Quarantine => quarantine
    }

    function Merged(k: Kind, batch: seq<EventRow>): EventTables {
      match k
      case Raw => this.(raw := Merge(raw, batch))
      case Normalized => this.(normalized := Merge(normalized, batch))
      case Quarantine => this.(quarantine := Merge(quarantine, batch))
    }
  }

  datatype Config = Config(maxRows: nat, maxBytes: int, retries: nat, rawSpec: TableSpec, normalizedSpec: TableSpec,
                           quarantineSpec: TableSpec) {
    predicate Valid() {
      maxRows > 0 && rawSpec.columns != [] && normalizedSpec.columns != [] && quarantineSpec.columns != []
    }

    function Spec(k: Kind): TableSpec {
      match k
      case Raw => rawSpec
      case Normalized => normalizedSpec
      case Quarantine => quarantineSpec
    }

    function Limits(k: Kind): Limits { Batcher.Limits(maxRows, maxBytes, MergeFixed(Spec(k))) }
  }

  datatype Status = Empty | Running | Completed | CompletedWithQuarantine | Failed

  datatype IngestionResult = IngestionResult(run: nat, received: nat, committed: nat, quarantined: nat,
                                             duplicates: int, status: Status)

  function Stamp(received: seq<Event>, run: nat): seq<EventRow> {
    if received == [] then []
    else
      var n := |received| - 1;
      Stamp(received[..n], run) + [Row(received[n].id, Stamped(received[n], run))]
  }

  /** The items of a run: one row per event id, the last event of each. */
  function Items(received: seq<Event>, run: nat): seq<EventRow> {
    Dedupe(Stamp(received, run))
  }

  function Parsed(rows: seq<EventRow>, success: bool): seq<EventRow> {
    if rows == [] then []
    else
      var n := |rows| - 1;
      Parsed(rows[..n], success) + (if rows[n].value.event.parseSuccess == success then [rows[n]] else [])
  }

  /** The items that a run merges into each table. */
  function RowsFor(k: Kind, items: seq<EventRow>): seq<EventRow> {
    match k
    case Raw => items
    case Normalized => Parsed(items, true)
    case Quarantine => Parsed(items, false)
  }

  function ValuesFor(k: Kind, e: Event): seq<Value> {
    match k
    case Raw => e.raw
    case Normalized => e.normalized
    case Quarantine => e.quarantine
  }

  /** SELECT count(*) ... WHERE ingestion_run_id = run */
  function CountForRun(rows: seq<EventRow>, run: nat): nat {
    if rows == [] then 0
    else CountForRun(rows[..|rows| - 1], run) + (if rows[|rows| - 1].value.run == run then 1 else 0)
  }

  /** The tables after an uninterrupted run. */
  function Completion(t: EventTables, items: seq<EventRow>): EventTables {
    t.Merged(Raw, items).Merged(Normalized, Parsed(items, true)).Merged(Quarantine, Parsed(items, false))
  }

  /** The result an uninterrupted run reports: counted in the tables, the rest is duplicates. */
  function Report(t: EventTables, received: seq<Event>, run: nat): IngestionResult {
    var items := Items(received, run);
    var after := Completion(t, items);
    var committed, quarantined := CountForRun(after.normalized, run), CountForRun(after.quarantine, run);
    IngestionResult(run, |received|, committed, quarantined,
                    (|received| - |items|) + |items| - committed - quarantined,
                    if quarantined > 0 then CompletedWithQuarantine else Completed)
  }

  // ---------------------------------------------------------------- items

  lemma {:induction false} StampRows(received: seq<Event>, run: nat)
    ensures |Stamp(received, run)| == |received|
    ensures forall i :: 0 <= i < |received| ==>
              Stamp(received, run)[i] == Row(received[i].id, Stamped(received[i], run))
  {
    if received != [] { StampRows(received[..|received| - 1], run); }
  }

  /** Items carry the run and their own id as key. */
  ghost predicate Owned(items: seq<EventRow>, run: nat) {
    Unique(items) && forall r :: r in items ==> r.key == r.value.event.id && r.value.run == run
  }

  lemma ItemsOwned(received: seq<Event>, run: nat)
    ensures Owned(Items(received, run), run) && |Items(received, run)| <= |received|
    ensures Keys(Items(received, run)) == set e | e in received :: e.id
    ensures forall r :: r in Items(received, run) ==> r.value.event in received
  {
    hide Stamp;
    var rows := Stamp(received, run);
    StampRows(received, run);
    DedupeRows(rows);
    forall r | r in Items(received, run)
      ensures r.key == r.value.event.id && r.value.run == run && r.value.event in received
    {
      var i :| 0 <= i < |rows| && rows[i] == r;
    }
    forall id ensures id in Keys(rows) <==> exists e :: e in received && e.id == id {
      if id in Keys(rows) {
        var r :| r in rows && r.key == id;
        var i :| 0 <= i < |rows| && rows[i] == r;
        assert received[i] in received;
      }
      if e :| e in received && e.id == id {
        var i :| 0 <= i < |received| && received[i] == e;
        assert rows[i] in rows;
      }
    }
  }

  lemma {:induction false} ParsedRows(rows: seq<EventRow>, success: bool)
    ensures forall r :: r in Parsed(rows, success) <==> r in rows && r.value.event.parseSuccess == success
    ensures Unique(rows) ==> Unique(Parsed(rows, success))
  {
    hide Unique;
    if rows == [] {
      NothingUnique<string, Stamped>();
    } else {
      var n := |rows| - 1;
      ParsedRows(rows[..n], success);
      assert rows == rows[..n] + [rows[n]];
      if Unique(rows) {
        UniqueLast(rows);
        var front := Parsed(rows[..n], success);
        if rows[n].value.event.parseSuccess == success { UniqueSnoc(front, rows[n]); }
        assert front + [] == front;
      }
    }
  }

  lemma RowsForOwned(k: Kind, items: seq<EventRow>, run: nat)
    requires Owned(items, run)
    ensures Owned(RowsFor(k, items), run)
    ensures forall r :: r in RowsFor(k, items) ==> r in items
  {
    hide Parsed;
    ParsedRows(items, true);
    ParsedRows(items, false);
  }

  lemma {:induction false} CountOfTwo(a: seq<EventRow>, b: seq<EventRow>, run: nat)
    ensures CountForRun(a + b, run) == CountForRun(a, run) + CountForRun(b, run)
  {
    if b == [] {
      assert a + b == a;
    } else {
      assert (a + b)[..|a + b| - 1] == a + b[..|b| - 1];
      CountOfTwo(a, b[..|b| - 1], run);
    }
  }

  lemma {:induction false} CountAll(rows: seq<EventRow>, run: nat)
    requires forall r :: r in rows ==> r.value.run == run
    ensures CountForRun(rows, run) == |rows|
  {
    if rows != [] { CountAll(rows[..|rows| - 1], run); }
  }

  lemma {:induction false} CountNone(rows: seq<EventRow>, run: nat)
    requires forall r :: r in rows ==> r.value.run != run
    ensures CountForRun(rows, run) == 0
  {
    if rows != [] { CountNone(rows[..|rows| - 1], run); }
  }

  /** Rows of other runs do not change this run's count. */
  lemma MergeOfAnother(table: seq<EventRow>, batch: seq<EventRow>, run: nat)
    requires forall r :: r in batch ==> r.value.run != run
    ensures CountForRun(Merge(table, batch), run) == CountForRun(table, run)
  {
    AbsentRows(table, batch);
    CountOfTwo(table, Absent(table, batch), run);
    CountNone(Absent(table, batch), run);
  }

  // ---------------------------------------------------------------- the rows of one run in its target table

  /** The keys of the rows that the run itself inserted. */
  ghost function KeysOfRun(table: seq<EventRow>, run: nat): set<string> {
    set r | r in table && r.value.run == run :: r.key
  }

  lemma {:induction false} CountIsKeys(table: seq<EventRow>, run: nat)
    requires Unique(table)
    ensures CountForRun(table, run) == |KeysOfRun(table, run)|
  {
    hide Unique, Keys;
    if table != [] {
      var n := |table| - 1;
      var front, x := table[..n], table[n];
      UniqueLast(table);
      CountIsKeys(front, run);
      assert KeysOfRun(table, run)
          == if x.value.run == run then KeysOfRun(front, run) + {x.key} else KeysOfRun(front, run);
    }
  }

  lemma {:induction false} KeysCount(rows: seq<EventRow>)
    requires Unique(rows)
    ensures |Keys(rows)| == |rows|
  {
    if rows != [] {
      var n := |rows| - 1;
      var front, x := rows[..n], rows[n];
      UniqueLast(rows);
      KeysCount(front);
      assert x.key !in Keys(front);
    }
  }

  /** The items that some other run had already stored in the target table. */
  ghost function Foreign(table: seq<EventRow>, rows: seq<EventRow>, run: nat): set<string> {
    Keys(rows) - KeysOfRun(table, run)
  }

  lemma ForeignCount(table: seq<EventRow>, rows: seq<EventRow>, run: nat)
    requires Unique(table) && Unique(rows) && KeysOfRun(table, run) <= Keys(rows)
    ensures CountForRun(table, run) + |Foreign(table, rows, run)| == |rows|
  {
    CountIsKeys(table, run);
    KeysCount(rows);
    assert Keys(rows) == KeysOfRun(table, run) + Foreign(table, rows, run);
  }

  /** Successes and failures partition the items. */
  lemma {:induction false} ParsedPartition(rows: seq<EventRow>)
    ensures |Parsed(rows, true)| + |Parsed(rows, false)| == |rows|
  {
    if rows != [] { ParsedPartition(rows[..|rows| - 1]); }
  }

  lemma CompletionKeys(t: EventTables, items: seq<EventRow>, k: Kind)
    ensures Keys(Completion(t, items).Of(k)) == Keys(t.Of(k)) + Keys(RowsFor(k, items))
  {
    hide Merge, Parsed;
    MergeKeys(t.Of(k), RowsFor(k, items));
  }

  // ---------------------------------------------------------------- the assumption on parsing

  /** parse_success is a function of the event id: exactly the ids in `good` parse. */
  ghost predicate ParsesAs(received: seq<Event>, good: set<string>) {
    forall e :: e in received ==> (e.parseSuccess <==> e.id in good)
  }

  /** Normalized rows parse and quarantined rows do not, so no id is in both tables. */
  ghost predicate Separated(t: EventTables, good: set<string>) {
    Keys(t.normalized) <= good && Keys(t.quarantine) !! good
  }
}
