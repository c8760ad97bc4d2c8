/** What the numbers of an ingestion result count. */
module IngestionCounts {
  import opened Tables
  import opened Lake
  import opened TrinoRuns

  /** The rows a MERGE inserts are the ids that the table lacked. */
  lemma InsertedCount(table: seq<EventRow>, rows: seq<EventRow>, run: nat)
    requires Owned(rows, run) && forall r :: r in table ==> r.value.run < run
    ensures CountForRun(Merge(table, rows), run) == |Keys(rows) - Keys(table)|
  {
    hide CountForRun, Absent, Unique, HasKey;
    var absent := Absent(table, rows);
    AbsentRows(table, rows);
    AbsentUnique(table, rows);
    CountOfTwo(table, absent, run);
    CountNone(table, run);
    CountAll(absent, run);
    KeysCount(absent);
    forall id ensures id in Keys(absent) <==> id in Keys(rows) && id !in Keys(table) {
      HasKeyIsKey(table, id);
    }
    assert Keys(absent) == Keys(rows) - Keys(table);
  }

  /**
   * committed and quarantined are the ids newly stored; duplicates are the repeats inside the input plus the
   * items that their target table already held. Nothing is counted twice or lost.
   */
  lemma ReportCounts(t: EventTables, received: seq<Event>, run: nat)
    requires Sound(t, run)
    ensures var r, items := Report(t, received, run), Items(received, run);
            var valid, invalid := Keys(Parsed(items, true)), Keys(Parsed(items, false));
            && r.committed == |valid - Keys(t.normalized)|
            && r.quarantined == |invalid - Keys(t.quarantine)|
            && r.duplicates == (|received| - |items|) + |valid * Keys(t.normalized)| + |invalid * Keys(t.quarantine)|
            && r.duplicates >= 0 && r.received == r.committed + r.quarantined + r.duplicates
  {
    hide Items, Parsed, CountForRun, Merge, Unique, Keys;
    var items := Items(received, run);
    ItemsOwned(received, run);
    RowsForOwned(Normalized, items, run);
    RowsForOwned(Quarantine, items, run);
    ParsedPartition(items);
    var valid, invalid := Parsed(items, true), Parsed(items, false);
    Stamps(t, run);
    InsertedCount(t.normalized, valid, run);
    InsertedCount(t.quarantine, invalid, run);
    KeysCount(valid);
    KeysCount(invalid);
    SplitCount(Keys(valid), Keys(t.normalized));
    SplitCount(Keys(invalid), Keys(t.quarantine));
  }

  lemma Stamps(t: EventTables, issued: nat)
    requires Sound(t, issued)
    ensures forall r :: r in t.normalized ==> r.value.run < issued
    ensures forall r :: r in t.quarantine ==> r.value.run < issued
  {
    assert t.normalized == t.Of(Normalized) && t.quarantine == t.Of(Quarantine);
  }

  lemma SplitCount<T>(a: set<T>, b: set<T>)
    ensures |a| == |a - b| + |a * b|
  {
    assert a == (a - b) + (a * b);
  }
}
