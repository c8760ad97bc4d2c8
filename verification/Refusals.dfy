/** Runs that are refused: which leave the event tables untouched, and which stop halfway. */
module Refusals {
  import opened Prelude
  import opened Tables
  import opened Batcher
  import opened Preflight
  import opened Lake
  import opened Plans
  import opened TrinoRuns
  import opened Convergence

  // ---------------------------------------------------------------- when a refused run leaves no trace

  /** Every row of the plan has its id in its table already. */
  ghost predicate AllPresent(t: EventTables, plan: seq<Statement>) {
    forall i :: 0 <= i < |plan| ==> Keys(plan[i].batch) <= Keys(t.Of(plan[i].kind))
  }

  lemma SendKeys(t: EventTables, st: Statement, k: Kind)
    ensures Keys(Plans.Send(t, st).Of(k)) == Keys(t.Of(k)) + if k == st.kind then Keys(st.batch) else {}
  {
    hide Merge;
    MergeKeys(t.Of(st.kind), st.batch);
  }

  lemma {:induction false} PresentPlanIsIdle(t: EventTables, plan: seq<Statement>)
    requires AllPresent(t, plan)
    ensures SendAll(t, plan) == t
    decreases |plan|
  {
    hide Merge, Keys;
    if plan != [] {
      var st := plan[0];
      NothingAbsent(t.Of(st.kind), st.batch);
      forall i | 0 <= i < |plan[1..]| ensures Keys(plan[1..][i].batch) <= Keys(t.Of(plan[1..][i].kind)) {
        assert plan[1..][i] == plan[i + 1];
      }
      PresentPlanIsIdle(t, plan[1..]);
    }
  }

  lemma {:induction false} PlanIsStored(t: EventTables, plan: seq<Statement>)
    ensures forall k: Kind :: Keys(t.Of(k)) <= Keys(SendAll(t, plan).Of(k))
    ensures forall i :: 0 <= i < |plan| ==> Keys(plan[i].batch) <= Keys(SendAll(t, plan).Of(plan[i].kind))
    decreases |plan|
  {
    hide Keys, Plans.Send;
    if plan != [] {
      var next := Plans.Send(t, plan[0]);
      forall k: Kind ensures Keys(t.Of(k)) <= Keys(next.Of(k)) { SendKeys(t, plan[0], k); }
      SendKeys(t, plan[0], plan[0].kind);
      PlanIsStored(next, plan[1..]);
      forall i | 0 <= i < |plan| ensures Keys(plan[i].batch) <= Keys(SendAll(t, plan).Of(plan[i].kind)) {
        assert i > 0 ==> plan[1..][i - 1] == plan[i];
      }
    }
  }

  /**
   * What an undisturbed run sends leaves the event tables untouched exactly when some row fails the checks up
   * front, or every row in the statements planned before the first oversize row is stored already. For a refused
   * run this is when the refusal comes before the tables are partially written.
   */
  lemma UntouchedIff(t: EventTables, items: seq<EventRow>, cfg: Config)
    ensures SendAll(t, Plan(items, cfg).0) == t <==> !Checked(items, cfg) || AllPresent(t, Plan(items, cfg).0)
  {
    hide Plan, Checked, SendAll, Keys;
    var plan := Plan(items, cfg).0;
    if !Checked(items, cfg) { UncheckedPlan(items, cfg); }
    if AllPresent(t, plan) { PresentPlanIsIdle(t, plan); }
    PlanIsStored(t, plan);
  }

  /**
   * ingest_events with no statement failing: it completes exactly on acceptable input, and a refusal leaves the
   * tables untouched exactly under the condition above.
   */
  method IngestUndisturbed(trino: Trino, received: seq<Event>) returns (r: Result<IngestionResult, IngestError>)
    requires trino.Valid() && trino.script == [] && received != [] && !AnyBlank(received)
    modifies trino
    ensures trino.Valid()
    ensures r.Success? <==> Acceptable(Items(received, old(trino.issued)), trino.cfg)
    ensures
      var items, before := Items(received, old(trino.issued)), old(trino.store.tables);
      trino.store.tables == before <==> !Checked(items, trino.cfg) || AllPresent(before, Plan(items, trino.cfg).0)
  {
    hide Items, Plan, SendAll, Acceptable, Checked, AllPresent, Sound, Reached, Completion, Report, AuditFits, Grows,
      Parsed;
    ghost var items, before := Items(received, trino.issued), trino.store.tables;
    ghost var reach, sent;
    r, reach, sent := trino.IngestEvents(received);
    UntouchedIff(before, items, trino.cfg);
    assert Plan(items, trino.cfg).0[..sent] == Plan(items, trino.cfg).0;
  }

  /** The row fits both size checks. */
  ghost predicate Passes(t: TableSpec, values: seq<Value>, cfg: Config) {
    PassesCheck(t, values, cfg.maxBytes) && !RaisesInMerge(t, values, cfg.maxBytes)
  }

  /**
   * Input is accepted exactly when for every id the last event received under it has a raw row that fits, and,
   * if it parsed, a normalized row that fits, and otherwise a quarantine row that fits.
   */
  lemma AcceptableEvents(received: seq<Event>, run: nat, cfg: Config)
    ensures Acceptable(Items(received, run), cfg) <==>
              forall i :: 0 <= i < |received| && LastWithId(received, i) ==>
                && Passes(cfg.rawSpec, received[i].raw, cfg)
                && (received[i].parseSuccess ==> Passes(cfg.normalizedSpec, received[i].normalized, cfg))
                && (!received[i].parseSuccess ==> Passes(cfg.quarantineSpec, received[i].quarantine, cfg))
  {
    hide Items, PassesCheck, RaisesInMerge, Parsed, LastWithId;
    var items := Items(received, run);
    ParsedRows(items, true);
    ParsedRows(items, false);
    forall r: EventRow
      ensures r in items <==> exists i :: 0 <= i < |received| && LastWithId(received, i)
                                && r == Row(received[i].id, Stamped(received[i], run))
    {
      ItemIsLast(received, run, r);
    }
    forall i | 0 <= i < |received| && LastWithId(received, i)
      ensures Row(received[i].id, Stamped(received[i], run)) in items
    {
    }
  }

  // ---------------------------------------------------------------- the margin that is enough

  /** The rows pass the check up front with the gap of their table to spare. */
  predicate Spare(k: Kind, rows: seq<EventRow>, cfg: Config) {
    var t := cfg.Spec(k);
    forall r :: r in rows ==> CheckRow(t, ValuesFor(k, r.value.event)) + CheckFixed(t) + Gap(t) <= cfg.maxBytes
  }

  lemma SpareFits(k: Kind, rows: seq<EventRow>, cfg: Config)
    requires cfg.Spec(k).columns != []
    ensures Spare(k, rows, cfg) <==> AllFit(k, rows, cfg)
    ensures Spare(k, rows, cfg) && Gap(cfg.Spec(k)) >= 0 ==> AllPass(k, rows, cfg)
  {
    hide CheckRow, CheckFixed, MergeRow, MergeFixed, Gap;
    forall r | r in rows
      ensures var t, values := cfg.Spec(k), ValuesFor(k, r.value.event);
              MergeRow(t, values) + MergeFixed(t) == CheckRow(t, values) + CheckFixed(t) + Gap(t)
    {
      SizeGap(cfg.Spec(k), ValuesFor(k, r.value.event));
    }
  }

  /**
   * Where no gap is negative, an undisturbed run completes exactly when all its rows pass the check up front
   * with the gap to spare: such rows never fail in the middle of a merge.
   */
  lemma SpareIsAcceptable(items: seq<EventRow>, cfg: Config)
    requires cfg.Valid() && forall k: Kind :: Gap(cfg.Spec(k)) >= 0
    ensures Acceptable(items, cfg) <==>
              && Spare(Raw, items, cfg) && Spare(Normalized, Parsed(items, true), cfg)
              && Spare(Quarantine, Parsed(items, false), cfg)
  {
    hide Spare, AllFit, AllPass, Parsed, Gap;
    SpareFits(Raw, items, cfg);
    SpareFits(Normalized, Parsed(items, true), cfg);
    SpareFits(Quarantine, Parsed(items, false), cfg);
  }

  /** The shipped tables and default limits. */
  const SHIPPED := Config(500, 850_000, 6, RAW, NORMALIZED, QUARANTINE)

  lemma ShippedGaps()
    ensures SHIPPED.Valid()
    ensures forall k: Kind :: Gap(SHIPPED.Spec(k))
              == match k case Raw => 21 case Normalized => 536 case Quarantine => 60
  {
    hide Gap;
    RawGap();
    NormalizedGap();
    QuarantineGap();
  }

  lemma ShippedAcceptable(items: seq<EventRow>)
    ensures Acceptable(items, SHIPPED) <==>
              && Spare(Raw, items, SHIPPED) && Spare(Normalized, Parsed(items, true), SHIPPED)
              && Spare(Quarantine, Parsed(items, false), SHIPPED)
  {
    hide Spare, Gap, Acceptable;
    ShippedGaps();
    SpareIsAcceptable(items, SHIPPED);
  }

  // ---------------------------------------------------------------- one event that stops halfway

  const NOTHING := EventTables([], [], [])

  /** One parsed event whose raw row fits and whose normalized row does not: its raw row stays behind. */
  lemma LoneEventStopsHalfway(e: Event, run: nat, cfg: Config)
    requires cfg.Valid() && e.parseSuccess
    requires var items := [Row(e.id, Stamped(e, run))];
             && Checked(items, cfg) && AllFit(Raw, items, cfg) && !AllFit(Normalized, items, cfg)
    ensures Items([e], run) == [Row(e.id, Stamped(e, run))]
    ensures var items := Items([e], run);
            SendAll(NOTHING, Plan(items, cfg).0) == EventTables(items, [], []) && !Plan(items, cfg).1
  {
    hide AllPass, AllFit, StatementsFor, NoOversize, Checked, SendAll;
    var items := [Row(e.id, Stamped(e, run))];
    LoneItem(e, run);
    NoOversizeIffFit(Raw, items, cfg);
    NoOversizeIffFit(Normalized, items, cfg);
    LoneStatement(items[0], Raw, cfg);
    LoneStatement(items[0], Normalized, cfg);
    assert [Statement(Raw, items)] + [] == [Statement(Raw, items)];
    SendOne(NOTHING, Statement(Raw, items));
    AllAbsent(items[0]);
  }

  lemma LoneItem(e: Event, run: nat)
    ensures Items([e], run) == [Row(e.id, Stamped(e, run))]
    ensures e.parseSuccess ==> Parsed(Items([e], run), true) == Items([e], run) && Parsed(Items([e], run), false) == []
  {
    var x: EventRow := Row(e.id, Stamped(e, run));
    assert [e][..0] == [] && [x][..0] == [];
    assert Stamp([e], run) == [x];
    assert Dedupe([x]) == [x];
    var none: seq<EventRow> := [];
    assert none + [] == none && none + [x] == [x];
    assert Parsed([x], true) == if e.parseSuccess then [x] else none;
    assert Parsed([x], false) == if e.parseSuccess then none else [x];
  }

  lemma AllAbsent(x: EventRow)
    ensures Merge([], [x]) == [x]
  {
    var none: seq<EventRow> := [];
    assert [x][..0] == none && none + [x] == [x];
    assert Absent(none, [x]) == [x];
  }

  lemma LoneStatement(x: EventRow, k: Kind, cfg: Config)
    ensures StatementsFor(k, [x], cfg) == if NoOversize(k, [x], cfg) then [Statement(k, [x])] else []
  {
    var sized := SizedRows(k, [x], cfg);
    var y := Sized(x, MergeRow(cfg.Spec(k), ValuesFor(k, x.value.event)));
    StripSized(k, [x], cfg);
    assert sized == [y];
    LoneBatch(y, cfg.Limits(k));
    StripOne(y);
    var batches := Sent(sized, cfg.Limits(k));
    StatementsAt(k, batches);
  }

  lemma StripOne(y: Sized<EventRow>)
    ensures Strip([y]) == [y.item]
  {
    assert [y][..0] == [];
  }

  lemma LoneBatch<T>(y: Sized<T>, lim: Limits)
    ensures Sent([y], lim) == if FirstOversize([y], lim) == 1 then [[y]] else []
  {
    assert [y][..0] == [] && [y][1..] == [];
    assert Pack<T>([], lim) == Packing([], []);
    assert Pack([y], lim) == Packing([], [y]);
  }

  // ---------------------------------------------------------------- events that grow

  /** Growing the event by one step adds no more to its normalized row than the gap between the two checks. */
  ghost predicate SmallStep(e: nat -> Event, n: nat, cfg: Config) {
    ValuesSize(e(n + 1).normalized) <= ValuesSize(e(n).normalized) + Gap(cfg.normalizedSpec)
  }

  /** While its normalized row passes the check up front, its raw row fits. */
  ghost predicate RawFits(e: nat -> Event, n: nat, cfg: Config) {
    PassesCheck(cfg.normalizedSpec, e(n).normalized, cfg.maxBytes) ==>
      PassesCheck(cfg.rawSpec, e(n).raw, cfg.maxBytes) && !RaisesInMerge(cfg.rawSpec, e(n).raw, cfg.maxBytes)
  }

  /** The last size below k at which the event passes the check up front. */
  function LastPassing(e: nat -> Event, k: nat, cfg: Config): (n: nat)
    ensures k > 0 ==> n < k
  {
    if k == 0 then 0
    else if PassesCheck(cfg.normalizedSpec, e(k - 1).normalized, cfg.maxBytes) then k - 1
    else LastPassing(e, k - 1, cfg)
  }

  lemma {:induction false} LastPasses(e: nat -> Event, k: nat, cfg: Config)
    requires PassesCheck(cfg.normalizedSpec, e(0).normalized, cfg.maxBytes)
    requires !PassesCheck(cfg.normalizedSpec, e(k).normalized, cfg.maxBytes)
    ensures
      var n := LastPassing(e, k, cfg);
      && n < k && PassesCheck(cfg.normalizedSpec, e(n).normalized, cfg.maxBytes)
      && !PassesCheck(cfg.normalizedSpec, e(n + 1).normalized, cfg.maxBytes)
  {
    hide PassesCheck;
    if !PassesCheck(cfg.normalizedSpec, e(k - 1).normalized, cfg.maxBytes) { LastPasses(e, k - 1, cfg); }
  }

  /**
   * Whatever the event: if it can outgrow the limit in steps no larger than the gap, then at some size it passes
   * every check up front and the run still fails, with the raw row stored and the normalized row refused.
   */
  lemma GrowingEventStops(e: nat -> Event, k: nat, run: nat, cfg: Config)
    requires cfg.Valid() && forall n: nat :: e(n).parseSuccess
    requires PassesCheck(cfg.normalizedSpec, e(0).normalized, cfg.maxBytes)
    requires !PassesCheck(cfg.normalizedSpec, e(k).normalized, cfg.maxBytes)
    requires forall n: nat :: SmallStep(e, n, cfg) && RawFits(e, n, cfg)
    ensures
      var items := Items([e(LastPassing(e, k, cfg))], run);
      && |items| == 1 && Checked(items, cfg) && !Acceptable(items, cfg)
      && SendAll(NOTHING, Plan(items, cfg).0) == EventTables(items, [], [])
  {
    hide ValuesSize, MergeRow, MergeFixed, Gap, Plan, SendAll, Items, Parsed;
    LastPasses(e, k, cfg);
    var n := LastPassing(e, k, cfg);
    assert SmallStep(e, n, cfg) && RawFits(e, n, cfg);
    CheckedRowRaises(cfg.normalizedSpec, e(n).normalized, cfg.maxBytes);
    LoneItem(e(n), run);
    LoneEventStopsHalfway(e(n), run, cfg);
    WholeIffAcceptable(Items([e(n)], run), cfg);
  }
}
