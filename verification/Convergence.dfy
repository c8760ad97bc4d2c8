/** What interleaved, crashed and replayed runs add up to. */
module Convergence {
  import opened Tables
  import opened Lake
  import opened Writers
  import opened DuckDb

  // ---------------------------------------------------------------- the ids a batch asks for

  ghost predicate LastWithId(received: seq<Event>, i: nat)
    requires i < |received|
  {
    forall j :: i < j < |received| ==> received[j].id != received[i].id
  }

  predicate BelongsTo(k: Kind, e: Event) {
    match k
    case Raw => true
    case Normalized => e.parseSuccess
    case Quarantine => !e.parseSuccess
  }

  /** The ids a batch wants in a table: those whose last event belongs there. */
  ghost function Wanted(k: Kind, received: seq<Event>): set<string> {
    set i | 0 <= i < |received| && LastWithId(received, i) && BelongsTo(k, received[i]) :: received[i].id
  }

  lemma ItemIsLast(received: seq<Event>, run: nat, r: EventRow)
    ensures r in Items(received, run) <==>
            exists i :: 0 <= i < |received| && LastWithId(received, i)
              && r == Row(received[i].id, Stamped(received[i], run))
  {
    hide Stamp;
    var rows := Stamp(received, run);
    StampRows(received, run);
    DedupeRows(rows);
    if i :| 0 <= i < |rows| && rows[i] == r && forall j :: i < j < |rows| ==> rows[j].key != r.key {
      assert LastWithId(received, i);
    }
    if i :| 0 <= i < |received| && LastWithId(received, i) && r == Row(received[i].id, Stamped(received[i], run)) {
      assert rows[i] == r;
      assert LastOf(rows, r);
    }
  }

  lemma RowsForMember(k: Kind, items: seq<EventRow>, r: EventRow)
    ensures r in RowsFor(k, items) <==> r in items && BelongsTo(k, r.value.event)
  {
    ParsedRows(items, true);
    ParsedRows(items, false);
  }

  lemma WantedKeys(k: Kind, received: seq<Event>, run: nat)
    ensures Keys(RowsFor(k, Items(received, run))) == Wanted(k, received)
  {
    hide Items, Parsed, LastWithId, BelongsTo;
    var rows := RowsFor(k, Items(received, run));
    forall id ensures id in Keys(rows) <==> id in Wanted(k, received) {
      if id in Keys(rows) {
        var r :| r in rows && r.key == id;
        RowsForMember(k, Items(received, run), r);
        ItemIsLast(received, run, r);
      }
      if id in Wanted(k, received) {
        var i :| 0 <= i < |received| && LastWithId(received, i) && BelongsTo(k, received[i]) && received[i].id == id;
        var r := Row(received[i].id, Stamped(received[i], run));
        ItemIsLast(received, run, r);
        RowsForMember(k, Items(received, run), r);
        assert r in rows;
      }
    }
  }

  // ---------------------------------------------------------------- the sequential, uninterrupted runs

  function Sequential(batches: seq<seq<Event>>): EventTables {
    if batches == [] then EventTables([], [], [])
    else
      var n := |batches| - 1;
      Completion(Sequential(batches[..n]), Items(batches[n], n))
  }

  ghost function AllWanted(k: Kind, batches: seq<seq<Event>>): set<string> {
    if batches == [] then {} else AllWanted(k, batches[..|batches| - 1]) + Wanted(k, batches[|batches| - 1])
  }

  lemma {:induction false} AllWantedMember(k: Kind, batches: seq<seq<Event>>, id: string)
    ensures id in AllWanted(k, batches) <==> exists b :: b in batches && id in Wanted(k, b)
  {
    if batches != [] {
      hide Wanted;
      var n := |batches| - 1;
      AllWantedMember(k, batches[..n], id);
      assert batches == batches[..n] + [batches[n]];
    }
  }

  lemma {:induction false} SequentialKeys(batches: seq<seq<Event>>, k: Kind)
    ensures Keys(Sequential(batches).Of(k)) == AllWanted(k, batches)
  {
    if batches != [] {
      hide Items, Parsed, Completion, Wanted;
      var n := |batches| - 1;
      SequentialKeys(batches[..n], k);
      CompletionKeys(Sequential(batches[..n]), Items(batches[n], n), k);
      WantedKeys(k, batches[n], n);
    }
  }

  // ---------------------------------------------------------------- convergence

  /** Every batch that any run worked on has one run that finished it. */
  ghost predicate Covered(s: State) {
    forall w: nat :: w < |s.writers| ==> FinishedOn(s, s.writers[w].received)
  }

  ghost predicate FinishedOn(s: State, b: seq<Event>) {
    exists v: nat :: v < |s.writers| && s.writers[v].phase.Finished? && s.writers[v].received == b
  }

  ghost predicate WorkedOn(s: State, b: seq<Event>) {
    exists w: nat :: w < |s.writers| && s.writers[w].received == b
  }

  /** The batches are those of the runs, in any order and number. */
  ghost predicate SameBatches(s: State, batches: seq<seq<Event>>) {
    forall b :: b in batches <==> WorkedOn(s, b)
  }

  /** A finished run has all its ids in place. */
  lemma FinishedStored(s: State, v: nat, k: Kind)
    requires Inv(s) && v < |s.writers| && s.writers[v].phase.Finished?
    ensures Wanted(k, s.writers[v].received) <= Keys(s.tables.Of(k))
  {
    hide Items, Parsed, Carried, CountForRun, Wanted, Unique, TablesSound, RowsExplained;
    WantedKeys(k, s.writers[v].received, v);
    assert WriterSound(s.tables, s.writers[v], v) && FinishSound(s.tables, s.writers[v], v);
  }

  /** Whatever is stored was wanted by the run it names. */
  lemma StoredWanted(s: State, k: Kind, r: EventRow)
    requires Inv(s) && r in s.tables.Of(k)
    ensures r.value.run < |s.writers| && r.key in Wanted(k, s.writers[r.value.run].received)
  {
    hide Items, Parsed, Wanted, Unique, TablesSound;
    WantedKeys(k, s.writers[r.value.run].received, r.value.run);
    assert r.key in Keys(RowsFor(k, Items(s.writers[r.value.run].received, r.value.run)));
  }

  /**
   * Once every batch has a finished run, the ids in each table are those of running the batches one after the
   * other without interruption, whatever crashed, was retried, replayed or interleaved before.
   */
  lemma RunsConverge(s: State, batches: seq<seq<Event>>, k: Kind)
    requires Inv(s) && Covered(s) && SameBatches(s, batches)
    ensures Keys(s.tables.Of(k)) == Keys(Sequential(batches).Of(k))
  {
    hide Inv, Wanted, Sequential, AllWanted, Covered, SameBatches, Keys;
    SequentialKeys(batches, k);
    forall id ensures id in Keys(s.tables.Of(k)) <==> id in AllWanted(k, batches) {
      AllWantedMember(k, batches, id);
      if id in Keys(s.tables.Of(k)) { StoredInBatch(s, batches, k, id); }
      if b :| b in batches && id in Wanted(k, b) { BatchStored(s, batches, k, b); }
    }
  }

  lemma StoredInBatch(s: State, batches: seq<seq<Event>>, k: Kind, id: string)
    requires Inv(s) && SameBatches(s, batches) && id in Keys(s.tables.Of(k))
    ensures exists b :: b in batches && id in Wanted(k, b)
  {
    hide Inv, Wanted;
    var r :| r in s.tables.Of(k) && r.key == id;
    StoredWanted(s, k, r);
    assert WorkedOn(s, s.writers[r.value.run].received);
  }

  lemma BatchStored(s: State, batches: seq<seq<Event>>, k: Kind, b: seq<Event>)
    requires Inv(s) && Covered(s) && SameBatches(s, batches) && b in batches
    ensures Wanted(k, b) <= Keys(s.tables.Of(k))
  {
    hide Inv, Wanted, Covered, SameBatches;
    assert WorkedOn(s, b) by { BatchWorkedOn(s, batches, b); }
    CoveredBatch(s, b);
    var v := FinishedRun(s, b);
    FinishedStored(s, v, k);
  }

  lemma BatchWorkedOn(s: State, batches: seq<seq<Event>>, b: seq<Event>)
    requires SameBatches(s, batches) && b in batches
    ensures WorkedOn(s, b)
  {
    hide WorkedOn;
  }

  lemma CoveredBatch(s: State, b: seq<Event>)
    requires Covered(s) && WorkedOn(s, b)
    ensures FinishedOn(s, b)
  {
    hide FinishedOn;
    var w: nat :| w < |s.writers| && s.writers[w].received == b;
    assert FinishedOn(s, s.writers[w].received);
  }

  lemma FinishedRun(s: State, b: seq<Event>) returns (v: nat)
    requires FinishedOn(s, b)
    ensures v < |s.writers| && s.writers[v].phase.Finished? && s.writers[v].received == b
  {
    v :| v < |s.writers| && s.writers[v].phase.Finished? && s.writers[v].received == b;
  }

  // ---------------------------------------------------------------- counts

  /**
   * A finished run's duplicates, however its writes interleaved with others: the repeats inside its input
   * plus the items whose row in the target table belongs to another run.
   */
  lemma FinishedCounts(s: State, w: nat)
    requires Inv(s) && w < |s.writers| && s.writers[w].phase.Finished?
    ensures var f, received := s.writers[w].phase, s.writers[w].received;
            var items := Items(received, w);
            && f.committed == CountForRun(s.tables.normalized, w)
            && f.quarantined == CountForRun(s.tables.quarantine, w)
            && f.duplicates == (|received| - |items|) + |Foreign(s.tables.normalized, Parsed(items, true), w)|
                                                      + |Foreign(s.tables.quarantine, Parsed(items, false), w)|
            && f.duplicates >= 0
            && Keys(Parsed(items, true)) <= Keys(s.tables.normalized)
            && Keys(Parsed(items, false)) <= Keys(s.tables.quarantine)
  {
    hide Items, Parsed, Carried, CountForRun, Unique, Foreign, Wanted, Keys, RowsExplained;
    var received := s.writers[w].received;
    var items := Items(received, w);
    ItemsOwned(received, w);
    RowsForOwned(Normalized, items, w);
    RowsForOwned(Quarantine, items, w);
    ParsedPartition(items);
    assert FinishSound(s.tables, s.writers[w], w) && TablesSound(s.tables);
    FinishedTarget(s, w, Normalized);
    FinishedTarget(s, w, Quarantine);
    assert s.tables.normalized == s.tables.Of(Normalized) && s.tables.quarantine == s.tables.Of(Quarantine);
    ForeignCount(s.tables.normalized, Parsed(items, true), w);
    ForeignCount(s.tables.quarantine, Parsed(items, false), w);
  }

  lemma FinishedTarget(s: State, w: nat, k: Kind)
    requires Inv(s) && w < |s.writers| && s.writers[w].phase.Finished?
    ensures var rows := RowsFor(k, Items(s.writers[w].received, w));
            KeysOfRun(s.tables.Of(k), w) <= Keys(rows) <= Keys(s.tables.Of(k))
  {
    hide Inv, Items, Parsed, Wanted;
    FinishedStored(s, w, k);
    WantedKeys(k, s.writers[w].received, w);
    forall id | id in KeysOfRun(s.tables.Of(k), w) ensures id in Wanted(k, s.writers[w].received) {
      var r :| r in s.tables.Of(k) && r.value.run == w && r.key == id;
      StoredWanted(s, k, r);
    }
  }

  /** The rows stamped by runs 0 to n - 1. */
  function StampedBy(rows: seq<EventRow>, n: nat): nat {
    if n == 0 then 0 else StampedBy(rows, n - 1) + CountForRun(rows, n - 1)
  }

  lemma {:induction false} StampedByAll(rows: seq<EventRow>, n: nat)
    requires forall r :: r in rows ==> r.value.run < n
    ensures StampedBy(rows, n) == |rows|
    decreases |rows|
  {
    if rows == [] {
      NothingStamped(n);
    } else {
      var m := |rows| - 1;
      StampedByAll(rows[..m], n);
      StampedSnoc(rows[..m], rows[m], n);
      assert rows == rows[..m] + [rows[m]];
    }
  }

  lemma {:induction false} NothingStamped(n: nat)
    ensures StampedBy([], n) == 0
  {
    if n > 0 { NothingStamped(n - 1); }
  }

  lemma {:induction false} StampedSnoc(rows: seq<EventRow>, x: EventRow, n: nat)
    ensures StampedBy(rows + [x], n) == StampedBy(rows, n) + (if x.value.run < n then 1 else 0)
  {
    if n > 0 {
      StampedSnoc(rows, x, n - 1);
      assert (rows + [x])[..|rows|] == rows;
    }
  }

  /** Every stored row is counted by exactly one run, failed ones included. */
  lemma CountsConserve(s: State, k: Kind)
    requires Inv(s)
    ensures StampedBy(s.tables.Of(k), |s.writers|) == |s.tables.Of(k)|
  {
    hide Items, Parsed, TablesSound;
    StampedByAll(s.tables.Of(k), |s.writers|);
  }

  // ---------------------------------------------------------------- the partition

  ghost predicate AllParseAs(s: State, good: set<string>) {
    forall w: nat :: w < |s.writers| ==> ParsesAs(s.writers[w].received, good)
  }

  lemma WantedParse(k: Kind, received: seq<Event>, good: set<string>)
    requires ParsesAs(received, good)
    ensures k == Normalized ==> Wanted(k, received) <= good
    ensures k == Quarantine ==> Wanted(k, received) !! good
  {
    hide LastWithId;
  }

  /**
   * With a parser that decides by event id, normalized and quarantine never share an id, in any reachable state;
   * with every batch finished they make up the raw ids.
   */
  lemma PartitionHolds(s: State, good: set<string>)
    requires Inv(s) && AllParseAs(s, good)
    ensures Keys(s.tables.normalized) <= good && Keys(s.tables.quarantine) !! good
    ensures Keys(s.tables.normalized) + Keys(s.tables.quarantine) <= Keys(s.tables.raw)
    ensures Covered(s) ==> Partitioned(s.tables)
  {
    hide Items, Parsed, Wanted, Unique, PlanFits, CountForRun, RowsExplained, WriterSound, FinishSound;
    var t := s.tables;
    assert t.raw == t.Of(Raw) && t.normalized == t.Of(Normalized) && t.quarantine == t.Of(Quarantine);
    forall r | r in t.Of(Normalized) ensures r.key in good {
      StoredWanted(s, Normalized, r);
      WantedParse(Normalized, s.writers[r.value.run].received, good);
    }
    forall r | r in t.Of(Quarantine) ensures r.key !in good {
      StoredWanted(s, Quarantine, r);
      WantedParse(Quarantine, s.writers[r.value.run].received, good);
    }
    if Covered(s) {
      forall r | r in t.Of(Raw) ensures r.key in Keys(t.normalized) || r.key in Keys(t.quarantine) {
        StoredWanted(s, Raw, r);
        var w := r.value.run;
        var v: nat :| v < |s.writers| && s.writers[v].phase.Finished? && s.writers[v].received == s.writers[w].received;
        FinishedStored(s, v, Normalized);
        FinishedStored(s, v, Quarantine);
        RawIsEither(s.writers[w].received);
      }
    }
  }

  lemma RawIsEither(received: seq<Event>)
    ensures Wanted(Raw, received) == Wanted(Normalized, received) + Wanted(Quarantine, received)
  {
    hide LastWithId;
    forall id | id in Wanted(Raw, received) ensures id in Wanted(Normalized, received) + Wanted(Quarantine, received) {
      var i :| 0 <= i < |received| && LastWithId(received, i) && received[i].id == id;
      assert BelongsTo(Normalized, received[i]) || BelongsTo(Quarantine, received[i]);
    }
  }
}
