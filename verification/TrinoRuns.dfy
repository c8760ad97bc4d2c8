/** One ingestion run against Trino: separate writes, each retried after a commit conflict. */
module TrinoRuns {
  import opened Prelude
  import opened Text
  import opened Tables
  import opened Batcher
  import opened Preflight
  import opened Lake
  import opened Plans

  /** An audit row of ingestion_runs. */
  datatype RunRow = RunRow(status: Status, received: nat, committed: nat, quarantined: nat, duplicates: int)

  datatype Store = Store(tables: EventTables, runs: map<nat, RunRow>)

  /** The writes a run sends. */
  datatype Write =
    | MergeEvents(kind: Kind, batch: seq<EventRow>)
    | InsertRun(run: nat, row: RunRow)
    | FinishRun(run: nat, status: Status, committed: nat, quarantined: nat, duplicates: int)

  function Apply(s: Store, w: Write): Store {
    match w
    case MergeEvents(kind, batch) => s.(tables := s.tables.Merged(kind, batch))
    case InsertRun(run, row) => if run in s.runs then s else s.(runs := s.runs[run := row])
    case FinishRun(run, status, committed, quarantined, duplicates) =>
      if run in s.runs then s.(runs := s.runs[run := RunRow(status, s.runs[run].received, committed, quarantined,
                                                            duplicates)])
      else s
  }

  /** How one statement goes. A conflict or a lost connection may hide that the write was applied. */
  datatype Outcome = Done | Conflict(landed: bool) | Broken(landed: bool)

  predicate Applied(o: Outcome) { o.Done? || o.landed }

  /** How many conflicts come first. */
  function Conflicts(script: seq<Outcome>): (n: nat)
    ensures n <= |script|
    ensures forall i :: 0 <= i < n ==> script[i].Conflict?
    ensures n < |script| ==> !script[n].Conflict?
  {
    if script != [] && script[0].Conflict? then 1 + Conflicts(script[1..]) else 0
  }

  /** How many outcomes one write uses up: the conflicts, up to the last retry, and the one that ends them. */
  function Attempts(script: seq<Outcome>, retries: nat): (n: nat)
    ensures n <= |script| && n <= retries + 1
  {
    var n := (if Conflicts(script) < retries then Conflicts(script) else retries) + 1;
    if n < |script| then n else |script|
  }

  /** The write is acknowledged when no more conflicts than retries come before success. */
  predicate Succeeds(script: seq<Outcome>, retries: nat) {
    var n := Conflicts(script);
    n <= retries && (n < |script| ==> script[n].Done?)
  }

  /** The next three statements succeed. */
  predicate ReadsWork(script: seq<Outcome>) { forall i :: 0 <= i < 3 && i < |script| ==> script[i].Done? }

  datatype IngestError = BlankEventId | RunFailed

  /** How far a run got: the numbers of rows merged into each table. */
  datatype Reach = Reach(raw: nat, normalized: nat, quarantine: nat)

  /** A write repeated after it was applied changes nothing more. */
  lemma ApplyAgain(s: Store, w: Write)
    ensures Apply(Apply(s, w), w) == Apply(s, w)
  {
    hide Merge;
    if w.MergeEvents? {
      MergeAgain(s.tables.Of(w.kind), w.batch);
    }
  }

  /** The tables between the start and the end of a run: raw first, then one event table after the other. */
  ghost predicate Reached(before: EventTables, after: EventTables, items: seq<EventRow>, reach: Reach) {
    && reach.raw <= |items| && reach.normalized <= |Parsed(items, true)| && reach.quarantine <= |Parsed(items, false)|
    && after.raw == Merge(before.raw, items[..reach.raw])
    && after.normalized == Merge(before.normalized, Parsed(items, true)[..reach.normalized])
    && after.quarantine == Merge(before.quarantine, Parsed(items, false)[..reach.quarantine])
    && (reach.normalized > 0 || reach.quarantine > 0 ==> reach.raw == |items|)
    && (reach.quarantine > 0 ==> reach.normalized == |Parsed(items, true)|)
  }

  /**
   * What every run keeps: one row per event id and table, every normalized or quarantined id has its raw row,
   * and every row names a run that was issued.
   */
  ghost predicate Sound(t: EventTables, issued: nat) {
    && Unique(t.raw) && Unique(t.normalized) && Unique(t.quarantine)
    && Keys(t.normalized) + Keys(t.quarantine) <= Keys(t.raw)
    && forall k: Kind, r :: r in t.Of(k) ==> r.value.run < issued
  }

  /** The audit rows of all other runs. */
  ghost predicate OthersKept(run: nat, before: map<nat, RunRow>, after: map<nat, RunRow>) {
    after - {run} == before - {run}
  }

  /** Stored rows stay as they are, in place. */
  ghost predicate Grows(before: EventTables, after: EventTables) {
    forall k: Kind :: before.Of(k) <= after.Of(k)
  }

  /** Wherever a run stops, the tables are sound and no stored row was touched. */
  lemma ReachedIsSound(before: EventTables, after: EventTables, items: seq<EventRow>, reach: Reach, run: nat)
    requires Sound(before, run) && Owned(items, run) && Reached(before, after, items, reach)
    ensures Sound(after, run + 1) && Grows(before, after)
  {
    hide Merge, Parsed, Unique, Keys;
    var valid, invalid := Parsed(items, true), Parsed(items, false);
    ParsedRows(items, true);
    ParsedRows(items, false);
    PrefixMerged(before.raw, items, reach.raw);
    PrefixMerged(before.normalized, valid, reach.normalized);
    PrefixMerged(before.quarantine, invalid, reach.quarantine);
    KeysWithin(valid, items);
    KeysWithin(invalid, items);
    if reach.normalized > 0 || reach.quarantine > 0 {
      assert items[..reach.raw] == items;
    } else {
      NoKeys(valid[..0]);
      NoKeys(invalid[..0]);
    }
    forall k: Kind, r | r in after.Of(k) ensures r.value.run < run + 1 {
      assert r in before.Of(k) || r in items;
    }
  }

  lemma KeysWithin(part: seq<EventRow>, all: seq<EventRow>)
    requires forall r :: r in part ==> r in all
    ensures Keys(part) <= Keys(all)
  {
  }

  lemma PrefixMerged(table: seq<EventRow>, rows: seq<EventRow>, n: nat)
    requires n <= |rows| && Unique(rows) && Unique(table)
    ensures var after := Merge(table, rows[..n]);
            && table <= after && Unique(after) && Keys(after) == Keys(table) + Keys(rows[..n])
            && Keys(rows[..n]) <= Keys(rows) && forall r :: r in after ==> r in table || r in rows
  {
    hide Merge;
    assert rows == rows[..n] + rows[n..];
    UniquePrefix(rows[..n], rows[n..]);
    KeysOfTwo(rows[..n], rows[n..]);
    MergeKeys(table, rows[..n]);
    MergeUnique(table, rows[..n]);
  }

  predicate AnyBlank(received: seq<Event>) {
    exists i :: 0 <= i < |received| && Blank(received[i].id)
  }

  function Unparsed(received: seq<Event>): nat {
    if received == [] then 0
    else Unparsed(received[..|received| - 1]) + (if received[|received| - 1].parseSuccess then 0 else 1)
  }

  /** An id of nothing but whitespace, or of nothing at all. */
  ghost predicate Unnamed(e: Event) { forall c :: c in e.id ==> c in WHITESPACE }

  lemma AnyBlankExact(received: seq<Event>)
    ensures AnyBlank(received) <==> exists e :: e in received && Unnamed(e)
  {
    hide IsSpace, WHITESPACE;
    forall c ensures IsSpace(c) <==> c in WHITESPACE { SpaceExact(c); }
    forall e: Event ensures Unnamed(e) <==> Blank(e.id) {
      assert forall i :: 0 <= i < |e.id| ==> e.id[i] in e.id;
    }
    forall i | 0 <= i < |received| ensures received[i] in received { }
  }

  /** Where the events stand that did not parse. */
  function Rejected(received: seq<Event>): set<nat> {
    set i: nat | i < |received| && !received[i].parseSuccess
  }

  lemma RejectedSnoc(received: seq<Event>, e: Event)
    ensures |Rejected(received + [e])| == |Rejected(received)| + if e.parseSuccess then 0 else 1
  {
    assert Rejected(received + [e]) == Rejected(received) + if e.parseSuccess then {} else {|received|};
  }

  lemma NoneRejected()
    ensures Rejected([]) == {}
  {
  }

  /** The quarantined number of a running row counts them. */
  lemma {:induction false} UnparsedCounts(received: seq<Event>)
    ensures Unparsed(received) == |Rejected(received)|
  {
    hide Rejected;
    if received == [] {
      NoneRejected();
    } else {
      var n := |received| - 1;
      UnparsedCounts(received[..n]);
      RejectedSnoc(received[..n], received[n]);
      assert received == received[..n] + [received[n]];
    }
  }

  /**
   * An audit row never claims more than happened: one that says completed comes with complete tables and their
   * true numbers, even when the caller saw an error.
   */
  predicate AuditFits(row: RunRow, before: EventTables, after: EventTables, received: seq<Event>, run: nat) {
    match row.status
    case Running => row == RunRow(Running, |received|, 0, Unparsed(received), 0)
    case Failed => row == RunRow(Failed, |received|, 0, 0, 0)
    case Empty => false
    case _ =>
      var report := Report(before, received, run);
      && after == Completion(before, Items(received, run))
      && row == RunRow(report.status, |received|, report.committed, report.quarantined, report.duplicates)
  }

  /** The audit row of a completed run: its first row with the true numbers. */
  function Finished(before: EventTables, received: seq<Event>, run: nat, row: RunRow): RunRow {
    var report := Report(before, received, run);
    RunRow(report.status, row.received, report.committed, report.quarantined, report.duplicates)
  }

  /** The row says that its run completed. */
  predicate Completes(row: RunRow) { row.status in {Completed, CompletedWithQuarantine} }

  lemma AuditStarted(before: EventTables, after: EventTables, received: seq<Event>, run: nat)
    ensures AuditFits(RunRow(Running, |received|, 0, Unparsed(received), 0), before, after, received, run)
  {
  }

  lemma AuditFinished(before: EventTables, received: seq<Event>, run: nat)
    ensures
      var report, after := Report(before, received, run), Completion(before, Items(received, run));
      && report.status in {Completed, CompletedWithQuarantine} && report.received == |received|
      && AuditFits(RunRow(report.status, |received|, report.committed, report.quarantined, report.duplicates), before,
                   after, received, run)
  {
    hide Items, Completion, CountForRun;
  }

  const EMPTY := IngestionResult(0, 0, 0, 0, 0, Empty)

  class Trino {
    const cfg: Config
    var store: Store
    var issued: nat          // run ids drawn so far; uuid4 never repeats one
    var script: seq<Outcome> // how the next statements go; beyond it they succeed

    constructor (cfg: Config, tables: EventTables, issued: nat, script: seq<Outcome>)
      requires cfg.Valid()
      ensures this.cfg == cfg && store == Store(tables, map[]) && this.issued == issued && this.script == script
    {
      this.cfg, this.store, this.issued, this.script := cfg, Store(tables, map[]), issued, script;
    }

    /** Send one statement. */
    method Send() returns (outcome: Outcome)
      modifies this`script
      ensures old(script) == [] ==> outcome == Done && script == []
      ensures old(script) != [] ==> outcome == old(script)[0] && script == old(script)[1..]
    {
      outcome := Done;
      if script != [] {
        outcome := script[0];
        script := script[1..];
      }
    }

    /**
     * The commit-retry loop. A conflict is retried at most cfg.retries times, anything else is raised. Whatever
     * landed unseen, the store ends up unchanged or with the write applied once, and it is applied exactly when
     * one of the attempts took effect.
     */
    method ExecuteWrite(w: Write) returns (ok: bool)
      modifies this`store, this`script
      ensures store == old(store) || store == Apply(old(store), w)
      ensures ok ==> store == Apply(old(store), w)
      ensures ok <==> Succeeds(old(script), cfg.retries)
      ensures script == old(script)[Attempts(old(script), cfg.retries)..]
      ensures (exists i :: 0 <= i < Attempts(old(script), cfg.retries) && Applied(old(script)[i])) ==>
                store == Apply(old(store), w)
      ensures !ok && (forall i :: 0 <= i < Attempts(old(script), cfg.retries) ==> !Applied(old(script)[i])) ==>
                store == old(store)
      ensures old(script) == [] ==> ok && script == []
    {
      hide Apply;
      ApplyAgain(store, w);
      var attempt := 0;
      while true
        invariant attempt <= cfg.retries && attempt <= |old(script)| && script == old(script)[attempt..]
        invariant forall i :: 0 <= i < attempt ==> old(script)[i].Conflict?
        invariant store == if exists i :: 0 <= i < attempt && Applied(old(script)[i]) then Apply(old(store), w)
                           else old(store)
        decreases cfg.retries - attempt
      {
        var outcome := Send();
        if outcome.Done? || outcome.landed {
          store := Apply(store, w);
        }
        match outcome
        case Done => return true;
        case Broken(_) => return false;
        case Conflict(_) =>
          if attempt >= cfg.retries {
            return false;
          }
          attempt := attempt + 1;
      }
    }

    /** _merge_batches: send the batches in order; what was merged is a prefix of the rows. */
    method MergeBatches(k: Kind, rows: seq<EventRow>) returns (ok: bool, ghost n: nat, ghost sent: nat)
      requires cfg.Valid() && Unique(rows)
      modifies this`store, this`script
      ensures n <= |rows| && (ok ==> n == |rows|)
      ensures store == old(store).(tables := old(store).tables.Merged(k, rows[..n]))
      ensures sent <= |StatementsFor(k, rows, cfg)|
      ensures store.tables == SendAll(old(store).tables, StatementsFor(k, rows, cfg)[..sent])
      ensures ok || old(script) == [] ==> sent == |StatementsFor(k, rows, cfg)|
      ensures ok ==> AllFit(k, rows, cfg)
      ensures old(script) == [] ==> script == [] && (ok <==> AllFit(k, rows, cfg))
    {
      hide Merge, SizedRows, Strip, Fits, AllFit, FirstOversize, Sent, Feasible, Unique, StatementsOf, SendAll;
      var sized := SizedRows(k, rows, cfg);
      var batches, raised := Split(sized, cfg.Limits(k));
      ghost var plan := StatementsFor(k, rows, cfg);
      WhatIsSent(k, rows, cfg);
      FitsIffFits(k, rows, cfg);
      StatementsAt(k, batches);
      n, sent := 0, 0;
      MergedNothing(store.tables, k);
      SendNothing(store.tables);
      for i := 0 to |batches|
        invariant n == |Concat(batches[..i])| <= |rows| && sent == i
        invariant store == old(store).(tables := old(store).tables.Merged(k, rows[..n]))
        invariant store.tables == SendAll(old(store).tables, plan[..sent])
        invariant old(script) == [] ==> script == []
      {
        ghost var m := NextStretch(rows, sized, batches, i);
        MergedInTwo(old(store).tables, k, rows, n, m);
        SendAllSnoc(old(store).tables, plan, i);
        var written := ExecuteWrite(MergeEvents(k, Strip(batches[i])));
        if store.tables == old(store).tables.Merged(k, rows[..m]) {
          n, sent := m, i + 1;
        }
        if !written {
          return false, n, sent;
        }
      }
      assert batches[..|batches|] == batches && plan[..|plan|] == plan;
      ok := !raised;
    }

    ghost predicate Valid()
      reads this
    {
      cfg.Valid() && Sound(store.tables, issued) && forall run :: run in store.runs ==> run < issued
    }

    /** _assert_events_fit */
    method AssertFit(k: Kind, rows: seq<EventRow>) returns (ok: bool)
      ensures ok <==> AllPass(k, rows, cfg)
    {
      for i := 0 to |rows|
        invariant AllPass(k, rows[..i], cfg)
      {
        if !PassesCheck(cfg.Spec(k), ValuesFor(k, rows[i].value.event), cfg.maxBytes) {
          return false;
        }
        assert rows[..i + 1] == rows[..i] + [rows[i]];
      }
      assert rows[..|rows|] == rows;
      return true;
    }

    /** The three event tables, raw first. */
    method MergeAll(items: seq<EventRow>) returns (ok: bool, ghost reach: Reach, ghost sent: nat)
      requires cfg.Valid() && Unique(items) && Checked(items, cfg)
      modifies this`store, this`script
      ensures store.runs == old(store).runs && Reached(old(store).tables, store.tables, items, reach)
      ensures ok ==> store.tables == Completion(old(store).tables, items)
      ensures sent <= |Plan(items, cfg).0| && store.tables == SendAll(old(store).tables, Plan(items, cfg).0[..sent])
      ensures ok || old(script) == [] ==> sent == |Plan(items, cfg).0|
      ensures ok ==> Plan(items, cfg).1
      ensures old(script) == [] ==> script == [] && (ok <==> Plan(items, cfg).1)
    {
      hide Merge, Parsed, AllFit, Checked, StatementsFor, NoOversize, SendAll;
      ParsedRows(items, true);
      ParsedRows(items, false);
      ghost var start := store.tables;
      MergedNothing(start, Raw);
      MergedNothing(start, Normalized);
      MergedNothing(start, Quarantine);
      reach := Reach(0, 0, 0);
      ghost var n, part;
      ghost var raw, normalized := StatementsFor(Raw, items, cfg), StatementsFor(Normalized, Parsed(items, true), cfg);
      ghost var quarantine := StatementsFor(Quarantine, Parsed(items, false), cfg);
      NoOversizeIffFit(Raw, items, cfg);
      NoOversizeIffFit(Normalized, Parsed(items, true), cfg);
      NoOversizeIffFit(Quarantine, Parsed(items, false), cfg);
      PlanStarts(items, cfg);
      ok, n, part := MergeBatches(Raw, items);
      reach, sent := reach.(raw := n), part;
      assert raw[..sent] == Plan(items, cfg).0[..sent];
      if !ok { return false, reach, sent; }
      assert raw[..|raw|] == raw;
      ok, n, part := MergeBatches(Normalized, Parsed(items, true));
      reach, sent := reach.(normalized := n), |raw| + part;
      SendAllPart(start, raw, normalized, part);
      assert (raw + normalized)[..sent] == Plan(items, cfg).0[..sent];
      if !ok { return false, reach, sent; }
      assert normalized[..|normalized|] == normalized && (raw + normalized)[..|raw + normalized|] == raw + normalized;
      ok, n, part := MergeBatches(Quarantine, Parsed(items, false));
      reach, sent := reach.(quarantine := n), |raw + normalized| + part;
      SendAllPart(start, raw + normalized, quarantine, part);
      assert items[..|items|] == items && Parsed(items, true)[..|Parsed(items, true)|] == Parsed(items, true)
          && Parsed(items, false)[..|Parsed(items, false)|] == Parsed(items, false);
    }

    /** The two counts and the latest snapshot: reads are not retried. */
    method ReadCounts(run: nat) returns (committed: nat, quarantined: nat, ok: bool)
      modifies this`script
      ensures ok <==> ReadsWork(old(script))
      ensures ok ==> script == if |old(script)| <= 3 then [] else old(script)[3..]
      ensures ok ==> committed == CountForRun(store.tables.normalized, run)
      ensures ok ==> quarantined == CountForRun(store.tables.quarantine, run)
    {
      hide CountForRun;
      committed, quarantined, ok := 0, 0, false;
      var read := Send();
      if !read.Done? { return; }
      committed := CountForRun(store.tables.normalized, run);
      read := Send();
      if !read.Done? { return; }
      quarantined := CountForRun(store.tables.quarantine, run);
      read := Send();
      ok := read.Done?;
    }

    /** The counts after the merges, and the final audit row. */
    method Conclude(received: seq<Event>, run: nat, items: seq<EventRow>, ghost before: EventTables)
        returns (r: Result<IngestionResult, IngestError>)
      requires items == Items(received, run) && store.tables == Completion(before, items)
      modifies this`store, this`script
      ensures store.tables == old(store).tables && OthersKept(run, old(store).runs, store.runs)
      ensures r.Success? ==> r.value == Report(before, received, run)
      ensures r.Failure? ==> r.error == RunFailed
      ensures run !in old(store).runs ==> store.runs == old(store).runs
      ensures run in old(store).runs ==>
                var finished := old(store).runs[run := Finished(before, received, run, old(store).runs[run])];
                store.runs == finished || (r.Failure? && store.runs == old(store).runs)
      ensures old(script) == [] ==> r.Success? && script == []
      ensures r.Success? <==>
                ReadsWork(old(script)) && Succeeds(if |old(script)| <= 3 then [] else old(script)[3..], cfg.retries)
    {
      hide Items, CountForRun, Completion, Succeeds, Attempts, Applied;
      var committed, quarantined, ok := ReadCounts(run);
      if !ok { return Result.Failure(RunFailed); }
      var duplicates := (|received| - |items|) + |items| - committed - quarantined;
      var status := if quarantined > 0 then CompletedWithQuarantine else Completed;
      ok := ExecuteWrite(FinishRun(run, status, committed, quarantined, duplicates));
      if !ok { return Result.Failure(RunFailed); }
      return Success(IngestionResult(run, |received|, committed, quarantined, duplicates, status));
    }

    /** The body of the try block: the audit row, the checks, the merges, the counts, the final audit row. */
    method Run(received: seq<Event>, run: nat, items: seq<EventRow>)
        returns (r: Result<IngestionResult, IngestError>, ghost reach: Reach, ghost sent: nat)
      requires cfg.Valid() && items == Items(received, run) && run !in store.runs
      modifies this`store, this`script
      ensures Reached(old(store).tables, store.tables, items, reach)
      ensures OthersKept(run, old(store).runs, store.runs)
      ensures run in store.runs ==> AuditFits(store.runs[run], old(store).tables, store.tables, received, run)
      ensures old(script) == [] ==> run in store.runs && script == []
      ensures sent <= |Plan(items, cfg).0| && store.tables == SendAll(old(store).tables, Plan(items, cfg).0[..sent])
      ensures r.Success? || old(script) == [] ==> sent == |Plan(items, cfg).0|
      ensures r.Success? ==> Plan(items, cfg).1
      ensures r.Success? ==>
                && store.tables == Completion(old(store).tables, items)
                && r.value == Report(old(store).tables, received, run)
                && run in store.runs
                && store.runs[run] == RunRow(r.value.status, |received|, r.value.committed, r.value.quarantined,
                                             r.value.duplicates)
      ensures old(script) == [] ==> (r.Success? <==> Plan(items, cfg).1)
      ensures r.Failure? ==> r.error == RunFailed
      ensures run !in store.runs ==> sent == 0
      ensures run in store.runs && Completes(store.runs[run]) ==> sent == |Plan(items, cfg).0| && Plan(items, cfg).1
    {
      hide Merge, Parsed, AllFit, AllPass, CountForRun, Items, Unparsed, AuditFits, Completion, Report, SendAll, Plan;
      if !Checked(items, cfg) { UncheckedPlan(items, cfg); }
      SendNothing(store.tables);
      sent := 0;
      ghost var before := store.tables;
      AuditFinished(before, received, run);
      forall after
        ensures AuditFits(RunRow(Running, |received|, 0, Unparsed(received), 0), before, after, received, run)
      {
        AuditStarted(before, after, received, run);
      }
      reach := Reach(0, 0, 0);
      NothingReached(store.tables, items);
      ItemsOwned(received, run);
      var ok := ExecuteWrite(InsertRun(run, RunRow(Running, |received|, 0, Unparsed(received), 0)));
      if !ok { return Result.Failure(RunFailed), reach, sent; }
      var rawFits := AssertFit(Raw, items);
      var validFits := AssertFit(Normalized, Parsed(items, true));
      var invalidFits := AssertFit(Quarantine, Parsed(items, false));
      if !(rawFits && validFits && invalidFits) { return Result.Failure(RunFailed), reach, sent; }
      ok, reach, sent := MergeAll(items);
      if !ok { return Result.Failure(RunFailed), reach, sent; }
      r := Conclude(received, run, items, before);
    }

    /**
     * ingest_events. Whatever the script makes of the statements, the event tables end up between the raw-first
     * stages of this run, after a prefix of its planned statements; a result is only returned for a completed
     * run. Undisturbed, every planned statement is sent, and the run completes exactly when every row passes the
     * checks up front and in the merge.
     */
    method IngestEvents(received: seq<Event>)
        returns (r: Result<IngestionResult, IngestError>, ghost reach: Reach, ghost sent: nat)
      requires Valid()
      modifies this
      ensures Valid() && Grows(old(store).tables, store.tables)
      ensures old(script) == [] ==> script == []
      ensures received == [] ==> r == Success(EMPTY) && store == old(store) && issued == old(issued)
      ensures r == Result.Failure(BlankEventId) <==> exists e :: e in received && Unnamed(e)
      ensures AnyBlank(received) ==> r == Result.Failure(BlankEventId) && store == old(store) && issued == old(issued)
      ensures received != [] && !AnyBlank(received) ==>
                var run, items := old(issued), Items(received, old(issued));
                && issued == run + 1
                && Reached(old(store).tables, store.tables, items, reach)
                && OthersKept(run, old(store).runs, store.runs)
                && (run in store.runs ==> AuditFits(store.runs[run], old(store).tables, store.tables, received, run))
                && (old(script) == [] ==> run in store.runs && (r.Failure? <==> store.runs[run].status == Failed))
                && (r.Success? ==>
                      && store.tables == Completion(old(store).tables, items)
                      && r.value == Report(old(store).tables, received, run)
                      && run in store.runs
                      && store.runs[run] == RunRow(r.value.status, |received|, r.value.committed, r.value.quarantined,
                                                   r.value.duplicates))
                && sent <= |Plan(items, cfg).0|
                && store.tables == SendAll(old(store).tables, Plan(items, cfg).0[..sent])
                && (r.Success? || old(script) == [] ==> sent == |Plan(items, cfg).0|)
                && (run !in store.runs ==> sent == 0)
                && (run in store.runs && Completes(store.runs[run]) ==>
                      sent == |Plan(items, cfg).0| && Acceptable(items, cfg))
                && (r.Success? ==> Acceptable(items, cfg))
                && (old(script) == [] && Acceptable(items, cfg) ==> r.Success?)
    {
      hide Merge, Parsed, Items, Reached, Report, Completion, Sound, Acceptable, Grows, SendAll, Plan, Unnamed,
        AnyBlank;
      AnyBlankExact(received);
      reach, sent := Reach(0, 0, 0), 0;
      GrowsReflexive(store.tables);
      if received == [] {
        return Success(EMPTY), reach, sent;
      }
      if AnyBlank(received) {
        return Result.Failure(BlankEventId), reach, sent;
      }
      var run := issued;
      issued := issued + 1;
      var items := Items(received, run);
      ItemsOwned(received, run);
      ghost var before := store.tables;
      r, reach, sent := Run(received, run, items);
      WholeIffAcceptable(items, cfg);
      ReachedIsSound(before, store.tables, items, reach, run);
      AuditFinished(before, received, run);
      if r.Failure? {
        var recorded := ExecuteWrite(FinishRun(run, Failed, 0, 0, 0));
      }
      RunsIssued(run, old(store).runs, store.runs);
    }
  }

  lemma RunsIssued(run: nat, before: map<nat, RunRow>, after: map<nat, RunRow>)
    requires OthersKept(run, before, after) && forall other :: other in before ==> other < run
    ensures forall other :: other in after ==> other < run + 1
  {
    forall other | other in after && other != run ensures other < run {
      assert other in after - {run};
    }
  }

  lemma GrowsReflexive(t: EventTables)
    ensures Grows(t, t)
  {
  }

  lemma NothingReached(t: EventTables, items: seq<EventRow>)
    ensures Reached(t, t, items, Reach(0, 0, 0))
  {
    MergedNothing(t, Raw);
    MergedNothing(t, Normalized);
    MergedNothing(t, Quarantine);
  }
}
