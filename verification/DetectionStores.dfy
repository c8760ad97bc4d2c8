/** Reading authentication events, storing findings, and the polling worker between the two. */
module DetectionStores {
  import opened Prelude
  import opened Text
  import opened AuthEvents
  import opened Rules
  import opened RuleIds
  import opened Evidence
  import opened Tables
  import opened Batcher
  import opened Preflight
  import opened TrinoRuns
  import Scans

  type FindingRow = Row<FindingId, Finding>

  datatype ScanError = MaxEventsNotPositive | ScanTooLarge | StorageFailed | Refused(error: Rules.Error)

  /** The WHERE clause of read_authentication. */
  predicate InScan(e: AuthEvent, lo: int, hi: int) {
    e.classUid == 3002 && e.activityId == 1 && e.status in {SUCCESS, FAILURE} && lo <= e.ts < hi
  }

  function Selected(logs: seq<AuthEvent>, lo: int, hi: int): seq<AuthEvent> {
    if logs == [] then []
    else
      var n := |logs| - 1;
      Selected(logs[..n], lo, hi) + (if InScan(logs[n], lo, hi) then [logs[n]] else [])
  }

  /** ORDER BY event_timestamp, event_id */
  function SortRows(rows: seq<AuthEvent>): seq<AuthEvent> {
    if rows == [] then [] else Insert(SortRows(rows[..|rows| - 1]), rows[|rows| - 1])
  }

  function AsRows(findings: seq<Finding>): (rows: seq<FindingRow>)
    ensures |rows| == |findings|
  {
    if findings == [] then []
    else
      var n := |findings| - 1;
      AsRows(findings[..n]) + [Row(findings[n].id, findings[n])]
  }

  lemma {:induction false} AsRowsAt(findings: seq<Finding>)
    ensures |AsRows(findings)| == |findings|
    ensures forall i :: 0 <= i < |findings| ==> AsRows(findings)[i] == Row(findings[i].id, findings[i])
    ensures Keys(AsRows(findings)) == Ids(findings)
  {
    if findings != [] {
      var n := |findings| - 1;
      AsRowsAt(findings[..n]);
      KeysOfTwo(AsRows(findings[..n]), [Row(findings[n].id, findings[n])]);
      IdsOfTwo(findings[..n], [findings[n]]);
      assert findings == findings[..n] + [findings[n]];
    }
  }

  lemma FindingsUnique(findings: seq<Finding>)
    requires OnePerId(findings)
    ensures Unique(AsRows(findings)) && Dedupe(AsRows(findings)) == AsRows(findings)
  {
    hide Dedupe;
    AsRowsAt(findings);
    DedupeOfUnique(AsRows(findings));
  }

  lemma {:induction false} InsertMembers(s: seq<AuthEvent>, e: AuthEvent)
    ensures |Insert(s, e)| == |s| + 1 && forall x :: x in Insert(s, e) <==> x in s || x == e
  {
    if s != [] && !Before(e, s[0]) {
      InsertMembers(s[1..], e);
      assert s == [s[0]] + s[1..];
    }
  }

  lemma {:induction false} SortMembers(rows: seq<AuthEvent>)
    ensures |SortRows(rows)| == |rows| && forall x :: x in SortRows(rows) <==> x in rows
  {
    if rows != [] {
      hide Insert;
      var n := |rows| - 1;
      SortMembers(rows[..n]);
      InsertMembers(SortRows(rows[..n]), rows[n]);
      assert rows == rows[..n] + [rows[n]];
    }
  }

  lemma {:induction false} SelectedMembers(logs: seq<AuthEvent>, lo: int, hi: int)
    ensures forall x :: x in Selected(logs, lo, hi) <==> x in logs && InScan(x, lo, hi)
  {
    if logs != [] {
      hide InScan;
      var n := |logs| - 1;
      SelectedMembers(logs[..n], lo, hi);
      assert logs == logs[..n] + [logs[n]];
    }
  }

  /** A login attempt between lo and hi, whoever tried. */
  predicate Wanted(e: AuthEvent, lo: int, hi: int) {
    e.classUid == 3002 && e.activityId == 1 && (e.status == 1 || e.status == 2) && lo <= e.ts && e.ts < hi
  }

  /** Where the matching rows stand. */
  ghost function Matching(logs: seq<AuthEvent>, lo: int, hi: int): set<nat> {
    set i: nat | i < |logs| && Wanted(logs[i], lo, hi)
  }

  lemma MatchingSnoc(logs: seq<AuthEvent>, e: AuthEvent, lo: int, hi: int)
    ensures |Matching(logs + [e], lo, hi)| == |Matching(logs, lo, hi)| + if Wanted(e, lo, hi) then 1 else 0
  {
    hide Wanted;
    assert Matching(logs + [e], lo, hi) == Matching(logs, lo, hi) + if Wanted(e, lo, hi) then {|logs|} else {};
  }

  lemma WantedInScan(e: AuthEvent, lo: int, hi: int)
    ensures Wanted(e, lo, hi) <==> InScan(e, lo, hi)
  {
  }

  lemma OneMoreOften(s: seq<AuthEvent>, x: AuthEvent, e: AuthEvent)
    ensures multiset(s + [x])[e] == multiset(s)[e] + if x == e then 1 else 0
  {
  }

  /** Every matching row is selected as often as it occurs, and no other. */
  lemma {:induction false} SelectedOften(logs: seq<AuthEvent>, lo: int, hi: int, e: AuthEvent)
    ensures multiset(Selected(logs, lo, hi))[e] == if Wanted(e, lo, hi) then multiset(logs)[e] else 0
  {
    hide Wanted, InScan;
    if logs != [] {
      var n := |logs| - 1;
      SelectedOften(logs[..n], lo, hi, e);
      OneMoreOften(logs[..n], logs[n], e);
      OneMoreOften(Selected(logs[..n], lo, hi), logs[n], e);
      assert logs == logs[..n] + [logs[n]];
      WantedInScan(logs[n], lo, hi);
      assert Selected(logs[..n], lo, hi) + [] == Selected(logs[..n], lo, hi);
    }
  }

  lemma {:induction false} SelectedCount(logs: seq<AuthEvent>, lo: int, hi: int)
    ensures |Selected(logs, lo, hi)| == |Matching(logs, lo, hi)|
  {
    hide Wanted, InScan, Matching;
    if logs == [] {
      NothingMatches(lo, hi);
    } else {
      var n := |logs| - 1;
      SelectedCount(logs[..n], lo, hi);
      assert logs == logs[..n] + [logs[n]];
      MatchingSnoc(logs[..n], logs[n], lo, hi);
      WantedInScan(logs[n], lo, hi);
    }
  }

  lemma SelectedExact(logs: seq<AuthEvent>, lo: int, hi: int)
    ensures forall e :: multiset(Selected(logs, lo, hi))[e] == if Wanted(e, lo, hi) then multiset(logs)[e] else 0
    ensures |Selected(logs, lo, hi)| == |Matching(logs, lo, hi)|
  {
    hide Wanted, Selected, Matching;
    SelectedCount(logs, lo, hi);
    forall e ensures multiset(Selected(logs, lo, hi))[e] == if Wanted(e, lo, hi) then multiset(logs)[e] else 0 {
      SelectedOften(logs, lo, hi, e);
    }
  }

  lemma NothingMatches(lo: int, hi: int)
    ensures Matching([], lo, hi) == {}
  {
  }

  /** a comes before b by time and then id, or has the same of both. */
  predicate NotAfter(a: AuthEvent, b: AuthEvent) {
    a.ts < b.ts || (a.ts == b.ts && (a.id == b.id || LexLess(a.id, b.id)))
  }

  ghost predicate InOrder(s: seq<AuthEvent>) {
    forall i, j :: 0 <= i < j < |s| ==> NotAfter(s[i], s[j])
  }

  lemma NotAfterTransitive(a: AuthEvent, b: AuthEvent, c: AuthEvent)
    requires NotAfter(a, b) && NotAfter(b, c)
    ensures NotAfter(a, c)
  {
    if LexLess(a.id, b.id) && LexLess(b.id, c.id) { LexTransitive(a.id, b.id, c.id); }
  }

  lemma {:induction false} InsertInOrder(s: seq<AuthEvent>, e: AuthEvent)
    requires InOrder(s)
    ensures InOrder(Insert(s, e)) && multiset(Insert(s, e)) == multiset(s) + multiset{e}
  {
    hide NotAfter, Before;
    if s == [] {
    } else if Before(e, s[0]) {
      BeforeIsNotAfter(e, s[0]);
      forall j | 0 <= j < |s| ensures NotAfter(e, s[j]) {
        if j > 0 { NotAfterTransitive(e, s[0], s[j]); }
      }
    } else {
      InsertInOrder(s[1..], e);
      InsertMembers(s[1..], e);
      BeforeIsNotAfter(e, s[0]);
      assert s == [s[0]] + s[1..];
      var rest := Insert(s[1..], e);
      forall j | 0 <= j < |rest| ensures NotAfter(s[0], rest[j]) {
        if rest[j] in s[1..] { var i :| 0 <= i < |s[1..]| && s[1..][i] == rest[j]; assert s[i + 1] == rest[j]; }
      }
    }
  }

  lemma BeforeIsNotAfter(a: AuthEvent, b: AuthEvent)
    ensures if Before(a, b) then NotAfter(a, b) else NotAfter(b, a)
  {
    LexTotal(a.id, b.id);
  }

  /** ORDER BY: by time and then id, with every row as often as before. */
  lemma {:induction false} SortedByKey(rows: seq<AuthEvent>)
    ensures InOrder(SortRows(rows)) && multiset(SortRows(rows)) == multiset(rows)
  {
    hide NotAfter, Insert;
    if rows != [] {
      var n := |rows| - 1;
      SortedByKey(rows[..n]);
      InsertInOrder(SortRows(rows[..n]), rows[n]);
      assert rows == rows[..n] + [rows[n]];
    }
  }

  /** What one scan finds, or nothing when it would read too much. */
  ghost function Found(logs: seq<AuthEvent>, start: int, end: int, cfg: Settings): Option<seq<Finding>>
    requires cfg.Valid()
  {
    var rows := Selected(logs, start - cfg.Window(), end);
    if |rows| > cfg.maxEvents then None else Some(Detections(SortRows(rows), start, end, cfg))
  }

  /** The rows with the bytes each adds to a MERGE; valuesOf is _values. */
  function SizedFindings(rows: seq<FindingRow>, valuesOf: Finding -> seq<Value>): (sized: seq<Sized<FindingRow>>)
    ensures |sized| == |rows|
    ensures forall i :: 0 <= i < |rows| ==> sized[i] == Sized(rows[i], MergeRow(DETECTIONS, valuesOf(rows[i].value)))
  {
    seq(|rows|, i requires 0 <= i < |rows| => Sized(rows[i], MergeRow(DETECTIONS, valuesOf(rows[i].value))))
  }

  /** Every finding passes the size check up front and the one made while merging. */
  predicate Writable(rows: seq<FindingRow>, valuesOf: Finding -> seq<Value>, maxBytes: int) {
    forall r :: r in rows ==>
      PassesCheck(DETECTIONS, valuesOf(r.value), maxBytes) && !RaisesInMerge(DETECTIONS, valuesOf(r.value), maxBytes)
  }

  /** A scan that reads its range and finds only what can be written. */
  ghost predicate Clear(found: Option<seq<Finding>>, valuesOf: Finding -> seq<Value>, maxBytes: int) {
    found.Some? && Writable(AsRows(found.value), valuesOf, maxBytes)
  }

  lemma {:induction false} StripSizedFindings(rows: seq<FindingRow>, valuesOf: Finding -> seq<Value>)
    ensures Strip(SizedFindings(rows, valuesOf)) == rows
  {
    hide MergeRow;
    if rows != [] {
      var n := |rows| - 1;
      var front, sized := SizedFindings(rows[..n], valuesOf), SizedFindings(rows, valuesOf);
      StripSizedFindings(rows[..n], valuesOf);
      StripSnoc(front, sized[n]);
      assert sized == front + [sized[n]];
      assert rows == rows[..n] + [rows[n]];
    }
  }

  /** What _merge_batches sends for rows that passed the check: a prefix, all of them if every one is writable. */
  lemma FindingsSent(rows: seq<FindingRow>, valuesOf: Finding -> seq<Value>, maxRows: nat, maxBytes: int)
    requires maxRows > 0 && forall r :: r in rows ==> PassesCheck(DETECTIONS, valuesOf(r.value), maxBytes)
    ensures
      var sized, lim := SizedFindings(rows, valuesOf), Limits(maxRows, maxBytes, MergeFixed(DETECTIONS));
      && Strip(sized) == rows && Concat(Sent(sized, lim)) <= sized
      && (Writable(rows, valuesOf, maxBytes) <==> forall i :: 0 <= i < |sized| ==> Fits(sized[i], lim))
      && (Writable(rows, valuesOf, maxBytes) ==> Concat(Sent(sized, lim)) == sized)
  {
    hide MergeRow, MergeFixed, Sent, PassesCheck, RaisesInMerge, SizedFindings, Writable, Fits, Feasible;
    var sized, lim := SizedFindings(rows, valuesOf), Limits(maxRows, maxBytes, MergeFixed(DETECTIONS));
    StripSizedFindings(rows, valuesOf);
    SentIsPrefix(sized, lim);
    FindingsFit(rows, valuesOf, lim);
  }

  lemma FindingsFit(rows: seq<FindingRow>, valuesOf: Finding -> seq<Value>, lim: Limits)
    requires lim.fixed == MergeFixed(DETECTIONS)
    requires forall r :: r in rows ==> PassesCheck(DETECTIONS, valuesOf(r.value), lim.maxBytes)
    ensures Writable(rows, valuesOf, lim.maxBytes)
       <==> forall i :: 0 <= i < |rows| ==> Fits(SizedFindings(rows, valuesOf)[i], lim)
  {
    hide MergeRow, MergeFixed, PassesCheck, SizedFindings;
    var sized := SizedFindings(rows, valuesOf);
    forall i | 0 <= i < |rows|
      ensures Fits(sized[i], lim) <==> !RaisesInMerge(DETECTIONS, valuesOf(rows[i].value), lim.maxBytes)
    {
    }
    if forall i :: 0 <= i < |rows| ==> Fits(sized[i], lim) {
      forall r | r in rows ensures !RaisesInMerge(DETECTIONS, valuesOf(r.value), lim.maxBytes) {
        var i :| 0 <= i < |rows| && rows[i] == r;
        assert Fits(sized[i], lim);
      }
    } else {
      var i :| 0 <= i < |rows| && !Fits(sized[i], lim);
      assert rows[i] in rows;
    }
  }

  class DetectionStore {
    const batchSize: nat
    const maxBytes: int
    const retries: nat
    const valuesOf: Finding -> seq<Value>
    var logs: seq<AuthEvent>         // application_logs
    var detections: seq<FindingRow>
    var script: seq<Outcome>         // how the next statements go; beyond it they succeed

    constructor (batchSize: nat, maxBytes: int, retries: nat, valuesOf: Finding -> seq<Value>, logs: seq<AuthEvent>,
                 script: seq<Outcome>)
      ensures this.batchSize == batchSize && this.maxBytes == maxBytes && this.retries == retries
              && this.valuesOf == valuesOf
      ensures this.logs == logs && detections == [] && this.script == script
    {
      this.batchSize, this.maxBytes, this.retries, this.valuesOf := batchSize, maxBytes, retries, valuesOf;
      this.logs, this.script := logs, script;
      this.detections := [];
    }

    method Send() returns (outcome: Outcome)
      modifies this`script
      ensures old(script) == [] ==> outcome == Done && script == []
      ensures old(script) != [] ==> outcome == old(script)[0] && script == old(script)[1..]
    {
      outcome := Done;
      if script != [] {
        outcome := script[0];
        script := script[1..];
      }
    }

    /** All rows of the scan in order, or an error: never a truncated batch. */
    method ReadAuthentication(lo: int, hi: int, maxEvents: int) returns (r: Result<seq<AuthEvent>, ScanError>)
      modifies this`script
      ensures maxEvents <= 0 ==> r == Result.Failure(MaxEventsNotPositive)
      ensures r.Success? ==> r.value == SortRows(Selected(logs, lo, hi)) && |r.value| <= maxEvents
      ensures r.Success? ==>
                && InOrder(r.value)
                && forall e :: multiset(r.value)[e] == if Wanted(e, lo, hi) then multiset(logs)[e] else 0
      ensures old(script) == [] && maxEvents > 0 ==>
                (r.Success? <==> |Matching(logs, lo, hi)| <= maxEvents)
      ensures old(script) == [] && maxEvents > 0 ==> (r.Success? <==> |Selected(logs, lo, hi)| <= maxEvents)
      ensures old(script) == [] ==> script == []
    {
      if maxEvents <= 0 {
        return Result.Failure(MaxEventsNotPositive);
      }
      var outcome := Send();
      if !outcome.Done? {
        return Result.Failure(StorageFailed);
      }
      SortMembers(Selected(logs, lo, hi));
      SortedByKey(Selected(logs, lo, hi));
      SelectedExact(logs, lo, hi);
      var rows := Take(SortRows(Selected(logs, lo, hi)), maxEvents + 1);
      if |rows| > maxEvents {
        return Result.Failure(ScanTooLarge);
      }
      return Success(rows);
    }

    /** One MERGE with commit retries. */
    method MergeBatch(batch: seq<FindingRow>) returns (ok: bool)
      modifies this`detections, this`script
      ensures detections == old(detections) || detections == Merge(old(detections), batch)
      ensures ok ==> detections == Merge(old(detections), batch)
      ensures old(script) == [] ==> ok && script == []
    {
      MergeAgain(detections, batch);
      var attempt := 0;
      while true
        invariant attempt <= retries
        invariant detections == old(detections) || detections == Merge(old(detections), batch)
        invariant old(script) == [] ==> script == []
        decreases retries - attempt
      {
        var outcome := Send();
        if outcome.Done? || outcome.landed {
          detections := Merge(detections, batch);
        }
        match outcome
        case Done => return true;
        case Broken(_) => return false;
        case Conflict(_) =>
          if attempt >= retries {
            return false;
          }
          attempt := attempt + 1;
      }
    }

    /**
     * write_findings: a stored finding stays as it was first written; what a failed write leaves behind is
     * a prefix of the findings. Undisturbed, it succeeds exactly when every finding passes both size checks.
     */
    method WriteFindings(findings: seq<Finding>) returns (ok: bool, ghost n: nat)
      requires batchSize > 0
      modifies this`detections, this`script
      ensures var rows := Dedupe(AsRows(findings));
              n <= |rows| && detections == Merge(old(detections), rows[..n]) && (ok ==> n == |rows|)
      ensures old(script) == [] ==> script == [] && (ok <==> Writable(Dedupe(AsRows(findings)), valuesOf, maxBytes))
    {
      hide Merge, Dedupe, AsRows, PassesCheck, RaisesInMerge, SizedFindings, Strip, Sent, Fits, FirstOversize,
        Feasible, Unique, LastOf, MergeFixed;
      var rows := Dedupe(AsRows(findings));
      DedupeRows(AsRows(findings));
      n := 0;
      MergeNothing(detections);
      if rows == [] {
        return true, n;
      }
      for i := 0 to |rows|
        invariant forall j :: 0 <= j < i ==> PassesCheck(DETECTIONS, valuesOf(rows[j].value), maxBytes)
      {
        if !PassesCheck(DETECTIONS, valuesOf(rows[i].value), maxBytes) {
          assert rows[i] in rows;
          return false, n;
        }
      }
      FindingsSent(rows, valuesOf, batchSize, maxBytes);
      var sized := SizedFindings(rows, valuesOf);
      var batches, raised := Split(sized, Limits(batchSize, maxBytes, MergeFixed(DETECTIONS)));
      for i := 0 to |batches|
        invariant n == |Concat(batches[..i])| <= |rows| && detections == Merge(old(detections), rows[..n])
        invariant old(script) == [] ==> script == []
      {
        ghost var next := NextStretch(rows, sized, batches, i);
        MergeStretch(old(detections), rows, n, next);
        ok := MergeBatch(Strip(batches[i]));
        if detections == Merge(old(detections), rows[..next]) {
          n := next;
        }
        if !ok {
          return false, n;
        }
      }
      assert batches[..|batches|] == batches;
      ok := !raised;
    }

    /** run_once over an explicit range. */
    method RunOnce(start: Bound, end: Bound, cfg: Settings) returns (r: Result<nat, ScanError>, ghost n: nat)
      requires batchSize > 0 && cfg.Valid()
      modifies this`detections, this`script
      ensures !InRange(start, end) ==> r == Result.Failure(Refused(BadRange)) && detections == old(detections)
      ensures InRange(start, end) ==>
                match Found(logs, start.instant, end.instant, cfg)
                case None => r.Failure? && detections == old(detections)
                case Some(findings) =>
                  && n <= |findings| && detections == Merge(old(detections), AsRows(findings)[..n])
                  && (r.Success? ==> r.value == |findings| == n)
                  && (old(script) == [] ==> (r.Success? <==> Writable(AsRows(findings), valuesOf, maxBytes)))
      ensures old(script) == [] ==> script == []
    {
      hide Merge, AsRows, Detections, Selected, SortRows, Writable;
      n := 0;
      MergeNothing(detections);
      if start == Naive || end == Naive || start.instant >= end.instant {
        return Result.Failure(Refused(BadRange)), 0;
      }
      var lo := start.instant - cfg.Window();
      SortMembers(Selected(logs, lo, end.instant));
      ghost var expected := Detections(SortRows(Selected(logs, lo, end.instant)), start.instant, end.instant, cfg);
      AsRowsAt(expected);
      var events := ReadAuthentication(lo, end.instant, cfg.maxEvents);
      if events.Failure? {
        return Result.Failure(events.error), 0;
      }
      var findings := Evaluate(events.value, start, end, cfg);
      DetectionsOnePerId(events.value, start.instant, end.instant, cfg);
      FindingsUnique(expected);
      var ok;
      ok, n := WriteFindings(findings.value);
      if !ok {
        return Result.Failure(StorageFailed), n;
      }
      return Success(|findings.value|), n;
    }
  }

  lemma MergeNothing(table: seq<FindingRow>)
    ensures Merge(table, []) == table
    ensures forall rows: seq<FindingRow> :: Merge(table, rows[..0]) == table
  {
    assert table + [] == table;
    forall rows: seq<FindingRow> ensures Merge(table, rows[..0]) == table {
      assert rows[..0] == [];
    }
  }

  lemma DetectionsOnePerId(events: seq<AuthEvent>, start: int, end: int, cfg: Settings)
    requires cfg.Valid()
    ensures OnePerId(Detections(events, start, end, cfg))
  {
    FindingsOnePerId(Slice(Canonical(events), start - cfg.Window(), end), start, cfg);
  }

  // ---------------------------------------------------------------- what one scan finds

  ghost function Eligibles(logs: seq<AuthEvent>): set<AuthEvent> {
    set e | e in logs && Eligible(e)
  }

  /**
   * Reading one window before the start is as good as reading everything: the findings are those of the whole
   * table, with the same counts, evidence, first_seen and order.
   */
  lemma FoundIsWhole(logs: seq<AuthEvent>, start: int, end: int, cfg: Settings)
    requires cfg.Valid() && Consistent(logs) && Found(logs, start, end, cfg).Some?
    ensures Found(logs, start, end, cfg).value == Detections(logs, start, end, cfg)
  {
    hide Detections, Selected, SortRows;
    var lo := start - cfg.Window();
    var rows := Selected(logs, lo, end);
    SelectedMembers(logs, lo, end);
    SortMembers(rows);
    Scans.OnlyWindowMatters(SortRows(rows), logs, start, end, cfg);
  }

  /** So a poll finds exactly the ids that the whole table justifies in its range. */
  lemma FoundExact(logs: seq<AuthEvent>, start: int, end: int, cfg: Settings, id: FindingId)
    requires cfg.Valid() && Consistent(logs) && Found(logs, start, end, cfg).Some?
    ensures id in Ids(Found(logs, start, end, cfg).value) <==> Justified(id, Eligibles(logs), start, end, cfg)
  {
    hide Found, Detections, Justified, Latest, Ids;
    FoundIsWhole(logs, start, end, cfg);
    LatestOfConsistent(logs);
    DetectionsExact(logs, start, end, cfg, id);
  }

  // ---------------------------------------------------------------- runs of polls

  datatype State = State(logs: seq<AuthEvent>, detections: seq<FindingRow>)

  /** Events arrive, possibly late; a poll that reads its range stores the first n of its findings. */
  datatype Step = Arrive(events: seq<AuthEvent>) | Poll(start: int, end: int, n: nat)

  ghost predicate Enabled(s: State, step: Step, cfg: Settings)
    requires cfg.Valid()
  {
    match step
    case Arrive(events) => Consistent(s.logs + events)
    case Poll(start, end, n) =>
      start < end && match Found(s.logs, start, end, cfg) case None => n == 0 case Some(findings) => n <= |findings|
  }

  ghost function Next(s: State, step: Step, cfg: Settings): State
    requires cfg.Valid() && Enabled(s, step, cfg)
  {
    match step
    case Arrive(events) => s.(logs := s.logs + events)
    case Poll(start, end, n) =>
      match Found(s.logs, start, end, cfg)
      case None => s
      case Some(findings) =>
        s.(detections := Merge(s.detections, AsRows(findings)[..n]))
  }

  /** The poll read its range and stored all it found. */
  ghost predicate Complete(s: State, step: Step, cfg: Settings)
    requires cfg.Valid()
  {
    step.Poll? && Found(s.logs, step.start, step.end, cfg).Some?
      && step.n == |Found(s.logs, step.start, step.end, cfg).value|
  }

  /** Some event of the table justifies the id, whenever it happened. */
  ghost predicate EverJustified(id: FindingId, all: set<AuthEvent>, cfg: Settings)
    requires cfg.Valid()
  {
    exists e :: e in all && Triggers(id.rule, e, all, cfg) && id == IdOf(id.rule, e, cfg)
  }

  /** The row is filed under its own id, and what it cites reads back from the given events. */
  ghost predicate Cited(r: FindingRow, all: set<AuthEvent>, cfg: Settings)
    requires cfg.Valid()
  {
    r.key == r.value.id && exists e, sample :: e in all && Supported(r.value, e, sample, all, cfg)
  }

  /** One row per finding id, and the current events justify every stored id and support every stored finding. */
  ghost predicate Inv(s: State, cfg: Settings)
    requires cfg.Valid()
  {
    && Consistent(s.logs) && Unique(s.detections)
    && (forall id :: id in Keys(s.detections) ==> EverJustified(id, Eligibles(s.logs), cfg))
    && forall r :: r in s.detections ==> Cited(r, Eligibles(s.logs), cfg)
  }

  lemma CitedWidens(r: FindingRow, all: set<AuthEvent>, more: set<AuthEvent>, cfg: Settings)
    requires cfg.Valid() && all <= more && Cited(r, all, cfg)
    ensures Cited(r, more, cfg)
  {
    hide Supported;
    var e, sample :| e in all && Supported(r.value, e, sample, all, cfg);
    SupportWidens(r.value, e, sample, all, more, cfg);
  }

  /** A finding of a scan is supported by the events the scan saw. */
  lemma FindingCited(logs: seq<AuthEvent>, start: int, end: int, cfg: Settings, r: FindingRow)
    requires cfg.Valid() && Consistent(logs)
    requires r.key == r.value.id && r.value in Detections(logs, start, end, cfg)
    ensures Cited(r, Eligibles(logs), cfg)
  {
    hide Detections, Supported, Latest, Counted;
    LatestOfConsistent(logs);
    var e, sample := FindingSound(logs, start, end, cfg, r.value);
  }

  lemma EverGrows(id: FindingId, all: set<AuthEvent>, more: set<AuthEvent>, cfg: Settings)
    requires cfg.Valid() && all <= more && EverJustified(id, all, cfg)
    ensures EverJustified(id, more, cfg)
  {
    hide IdOf, Triggers;
    var e :| e in all && Triggers(id.rule, e, all, cfg) && id == IdOf(id.rule, e, cfg);
    Scans.TriggersMonotone(id.rule, e, all, more, cfg);
  }

  lemma JustifiedIsEver(id: FindingId, all: set<AuthEvent>, start: int, end: int, cfg: Settings)
    requires cfg.Valid() && Justified(id, all, start, end, cfg)
    ensures EverJustified(id, all, cfg)
  {
    hide IdOf, Triggers;
  }

  /** What a poll adds: findings of the whole table, justified in its range, and all of those when it completes. */
  lemma PollAdds(s: State, step: Step, cfg: Settings)
    requires cfg.Valid() && Consistent(s.logs) && Unique(s.detections) && step.Poll? && Enabled(s, step, cfg)
    ensures var s', all := Next(s, step, cfg), Eligibles(s.logs);
            && s.detections <= s'.detections && Unique(s'.detections)
            && (forall id :: id in Keys(s'.detections) ==>
                  id in Keys(s.detections) || Justified(id, all, step.start, step.end, cfg))
            && (forall r :: r in s'.detections && r !in s.detections ==>
                  r.key == r.value.id && r.value in Detections(s.logs, step.start, step.end, cfg))
            && (Complete(s, step, cfg) ==>
                  forall id :: Justified(id, all, step.start, step.end, cfg) ==> id in Keys(s'.detections))
  {
    hide Detections, Justified, Merge, Dedupe, Eligibles, Selected, SortRows, Consistent;
    match Found(s.logs, step.start, step.end, cfg)
    case None =>
    case Some(findings) =>
      var rows := AsRows(findings);
      AsRowsAt(findings);
      DetectionsOnePerId(SortRows(Selected(s.logs, step.start - cfg.Window(), step.end)), step.start, step.end, cfg);
      FindingsUnique(findings);
      StoredPrefix(s.detections, rows, step.n);
      FoundIsWhole(s.logs, step.start, step.end, cfg);
      forall r | r in Next(s, step, cfg).detections && r !in s.detections
        ensures r.key == r.value.id && r.value in findings
      {
        var i :| 0 <= i < |rows| && rows[i] == r;
        assert rows[i] == Row(findings[i].id, findings[i]);
      }
      forall id ensures id in Ids(findings) <==> Justified(id, Eligibles(s.logs), step.start, step.end, cfg) {
        FoundExact(s.logs, step.start, step.end, cfg, id);
      }
  }

  lemma StoredPrefix(table: seq<FindingRow>, rows: seq<FindingRow>, n: nat)
    requires Unique(table) && Unique(rows) && n <= |rows|
    ensures var after := Merge(table, rows[..n]);
            && table <= after && Unique(after)
            && (forall r :: r in after ==> r in table || r in rows)
            && Keys(after) <= Keys(table) + Keys(rows) && (n == |rows| ==> Keys(after) == Keys(table) + Keys(rows))
  {
    hide Merge;
    assert rows == rows[..n] + rows[n..];
    UniquePrefix(rows[..n], rows[n..]);
    KeysOfTwo(rows[..n], rows[n..]);
    MergeKeys(table, rows[..n]);
    MergeUnique(table, rows[..n]);
    assert n == |rows| ==> rows[..n] == rows;
  }

  /**
   * Late arrivals and partial, failed or repeated polls never leave an id that the events do not justify, or a
   * finding that they do not support.
   */
  lemma StepKeeps(s: State, step: Step, cfg: Settings)
    requires cfg.Valid() && Inv(s, cfg) && Enabled(s, step, cfg)
    ensures Inv(Next(s, step, cfg), cfg) && s.detections <= Next(s, step, cfg).detections
  {
    hide Justified, EverJustified, Cited, Detections, Eligible, Found, Merge, Unique;
    var s' := Next(s, step, cfg);
    match step
    case Arrive(events) =>
      assert Eligibles(s.logs) <= Eligibles(s'.logs);
      forall id | id in Keys(s'.detections) ensures EverJustified(id, Eligibles(s'.logs), cfg) {
        EverGrows(id, Eligibles(s.logs), Eligibles(s'.logs), cfg);
      }
      forall r | r in s'.detections ensures Cited(r, Eligibles(s'.logs), cfg) {
        CitedWidens(r, Eligibles(s.logs), Eligibles(s'.logs), cfg);
      }
    case Poll(start, end, n) =>
      PollAdds(s, step, cfg);
      LogsUntouched(s, step, cfg);
      forall id | id in Keys(s'.detections) ensures EverJustified(id, Eligibles(s.logs), cfg) {
        if id !in Keys(s.detections) { JustifiedIsEver(id, Eligibles(s.logs), start, end, cfg); }
      }
      forall r | r in s'.detections ensures Cited(r, Eligibles(s.logs), cfg) {
        if r !in s.detections { FindingCited(s.logs, start, end, cfg, r); }
      }
  }

  lemma LogsUntouched(s: State, step: Step, cfg: Settings)
    requires cfg.Valid() && step.Poll? && Enabled(s, step, cfg)
    ensures Next(s, step, cfg).logs == s.logs
  {
  }

  ghost predicate History(states: seq<State>, steps: seq<Step>, cfg: Settings)
    requires cfg.Valid()
  {
    && |states| == |steps| + 1
    && forall i :: 0 <= i < |steps| ==>
         Enabled(states[i], steps[i], cfg) && states[i + 1] == Next(states[i], steps[i], cfg)
  }

  /** Over any history: stored findings keep their first form, and the latest events justify and support them. */
  lemma {:induction false} StoredIdsJustified(states: seq<State>, steps: seq<Step>, cfg: Settings, i: nat, n: nat)
    requires cfg.Valid() && History(states, steps, cfg) && Inv(states[0], cfg) && i <= n < |states|
    ensures Inv(states[n], cfg) && states[i].detections <= states[n].detections
    decreases n
  {
    hide Inv, Next, Enabled;
    if n > 0 {
      StoredIdsJustified(states, steps, cfg, if i < n then i else n - 1, n - 1);
      StepKeeps(states[n - 1], steps[n - 1], cfg);
    }
  }

  /** An id that a completed poll saw justified is stored from then on, whatever arrives or fails later. */
  lemma CompletedPollStays(states: seq<State>, steps: seq<Step>, cfg: Settings, i: nat, n: nat, id: FindingId)
    requires cfg.Valid() && History(states, steps, cfg) && Inv(states[0], cfg) && i < n < |states|
    requires Complete(states[i], steps[i], cfg)
    requires Justified(id, Eligibles(states[i].logs), steps[i].start, steps[i].end, cfg)
    ensures id in Keys(states[n].detections)
  {
    hide Inv, Next, Enabled, Complete, Justified;
    StoredIdsJustified(states, steps, cfg, i, i);
    InvParts(states[i], cfg);
    CompleteIsPoll(states[i], steps[i], cfg);
    PollAdds(states[i], steps[i], cfg);
    StoredIdsJustified(states, steps, cfg, i + 1, n);
    KeysGrow(states[i + 1].detections, states[n].detections);
  }

  lemma CompleteIsPoll(s: State, step: Step, cfg: Settings)
    requires cfg.Valid() && Complete(s, step, cfg)
    ensures step.Poll?
  {
  }

  // ---------------------------------------------------------------- polls over settled events

  /** Only polls happen, inside [a, b), and every instant of it is read by a completed poll. */
  ghost predicate Sweep(states: seq<State>, steps: seq<Step>, a: int, b: int, cfg: Settings)
    requires cfg.Valid()
  {
    && History(states, steps, cfg)
    && (forall i :: 0 <= i < |steps| ==> steps[i].Poll? && a <= steps[i].start && steps[i].end <= b)
    && forall t: int :: a <= t < b ==> CompletelyRead(states, steps, t, cfg)
  }

  ghost predicate CompletelyRead(states: seq<State>, steps: seq<Step>, t: int, cfg: Settings)
    requires cfg.Valid() && |states| == |steps| + 1
  {
    exists i :: 0 <= i < |steps| && steps[i].Poll? && steps[i].start <= t < steps[i].end
      && Complete(states[i], steps[i], cfg)
  }

  /** The stored ids after n polls. */
  lemma {:induction false} PollsStore(states: seq<State>, steps: seq<Step>, cfg: Settings, n: nat, id: FindingId)
    requires cfg.Valid() && History(states, steps, cfg) && Inv(states[0], cfg) && n < |states|
    requires forall i :: 0 <= i < |steps| ==> steps[i].Poll?
    ensures states[n].logs == states[0].logs
    ensures id in Keys(states[n].detections) ==>
              id in Keys(states[0].detections)
              || exists i :: 0 <= i < n && Justified(id, Eligibles(states[0].logs), steps[i].start, steps[i].end, cfg)
    ensures id in Keys(states[0].detections) ==> id in Keys(states[n].detections)
    ensures (exists i :: 0 <= i < n && Complete(states[i], steps[i], cfg)
                      && Justified(id, Eligibles(states[0].logs), steps[i].start, steps[i].end, cfg))
            ==> id in Keys(states[n].detections)
  {
    hide Inv, Next, Enabled, Justified, Complete, Eligibles;
    if n > 0 {
      var before, step := states[n - 1], steps[n - 1];
      PollsStore(states, steps, cfg, n - 1, id);
      StoredIdsJustified(states, steps, cfg, 0, n - 1);
      InvParts(before, cfg);
      PollAdds(before, step, cfg);
      LogsUntouched(before, step, cfg);
      KeysGrow(before.detections, states[n].detections);
    }
  }

  lemma InvParts(s: State, cfg: Settings)
    requires cfg.Valid() && Inv(s, cfg)
    ensures Consistent(s.logs) && Unique(s.detections)
  {
  }

  /**
   * Polls that sweep [a, b), overlapping, repeated, cut short or refused along the way, store exactly the ids
   * that one evaluation of the whole range over the whole table emits.
   */
  lemma SweepIsOneScan(states: seq<State>, steps: seq<Step>, a: int, b: int, cfg: Settings)
    requires cfg.Valid() && Sweep(states, steps, a, b, cfg) && Inv(states[0], cfg) && states[0].detections == []
    ensures Keys(states[|steps|].detections) == Ids(Detections(states[0].logs, a, b, cfg))
  {
    hide Inv, Next, Enabled, Complete, Detections, Latest, Ids, Consistent, IdOf, Triggers;
    var logs := states[0].logs;
    InvParts(states[0], cfg);
    LatestOfConsistent(logs);
    NoKeys(states[0].detections);
    forall id ensures id in Keys(states[|steps|].detections) <==> id in Ids(Detections(logs, a, b, cfg)) {
      PollsStore(states, steps, cfg, |steps|, id);
      DetectionsExact(logs, a, b, cfg, id);
      assert Latest(logs) == Eligibles(logs);
      if Justified(id, Eligibles(logs), a, b, cfg) {
        var e :| e in Eligibles(logs) && a <= e.ts < b && Triggers(id.rule, e, Eligibles(logs), cfg)
          && id == IdOf(id.rule, e, cfg);
        assert CompletelyRead(states, steps, e.ts, cfg);
        var i :| 0 <= i < |steps| && steps[i].Poll? && steps[i].start <= e.ts < steps[i].end
          && Complete(states[i], steps[i], cfg);
        assert Justified(id, Eligibles(logs), steps[i].start, steps[i].end, cfg);
      }
    }
  }

  /** Polling with a lookback leaves no instant unread while the gaps between polls stay within it. */
  lemma {:induction false} LookbackCovers(ends: seq<int>, lookback: int, t: int) returns (i: nat)
    requires ends != [] && forall j :: 0 < j < |ends| ==> ends[j - 1] <= ends[j] <= ends[j - 1] + lookback
    requires ends[0] - lookback <= t < ends[|ends| - 1]
    ensures i < |ends| && ends[i] - lookback <= t < ends[i]
  {
    var n := |ends| - 1;
    if n == 0 || ends[n - 1] <= t {
      i := n;
    } else {
      i := LookbackCovers(ends[..n], lookback, t);
    }
  }

  lemma {:induction false} EndsOrdered(ends: seq<int>, i: nat)
    requires i < |ends| && forall j :: 0 < j < |ends| ==> ends[j - 1] <= ends[j]
    ensures ends[0] <= ends[i] <= ends[|ends| - 1]
    decreases |ends|
  {
    if i < |ends| - 1 { EndsOrdered(ends[..|ends| - 1], i); } else if i > 0 { EndsOrdered(ends[..i], i - 1); }
  }

  /**
   * The polling worker: polls that end at `ends` and each read one lookback store exactly the ids of one scan
   * from the first start to the last end, as long as no gap exceeds the lookback.
   */
  lemma PollingIsOneScan(states: seq<State>, steps: seq<Step>, ends: seq<int>, cfg: Settings)
    requires cfg.Valid() && History(states, steps, cfg) && Inv(states[0], cfg) && states[0].detections == []
    requires ends != [] && |ends| == |steps|
    requires var lookback := cfg.lookbackSeconds * MICROS;
             && (forall i :: 0 <= i < |steps| ==>
                   steps[i].Poll? && steps[i].start == ends[i] - lookback && steps[i].end == ends[i])
             && (forall i :: 0 < i < |ends| ==> ends[i - 1] <= ends[i] <= ends[i - 1] + lookback)
    requires forall i :: 0 <= i < |steps| ==> Complete(states[i], steps[i], cfg)
    ensures Keys(states[|steps|].detections)
         == Ids(Detections(states[0].logs, ends[0] - cfg.lookbackSeconds * MICROS, ends[|ends| - 1], cfg))
  {
    hide Inv, Next, Enabled, Complete, Detections;
    var lookback, a, b := cfg.lookbackSeconds * MICROS, ends[0] - cfg.lookbackSeconds * MICROS, ends[|ends| - 1];
    forall t: int | a <= t < b ensures CompletelyRead(states, steps, t, cfg) {
      var i := LookbackCovers(ends, lookback, t);
      assert steps[i].start <= t < steps[i].end;
    }
    forall i | 0 <= i < |steps| ensures a <= steps[i].start && steps[i].end <= b { EndsOrdered(ends, i); }
    SweepIsOneScan(states, steps, a, b, cfg);
  }
}
