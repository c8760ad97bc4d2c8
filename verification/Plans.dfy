/** The MERGE statements of one run, and what sending them does to the tables. */
module Plans {
  import opened Tables
  import opened Batcher
  import opened Preflight
  import opened Lake

  /** One MERGE that a run is going to send. */
  datatype Statement = Statement(kind: Kind, batch: seq<EventRow>)

  function SizedRows(k: Kind, rows: seq<EventRow>, cfg: Config): seq<Sized<EventRow>> {
    if rows == [] then []
    else
      var n := |rows| - 1;
      SizedRows(k, rows[..n], cfg) + [Sized(rows[n], MergeRow(cfg.Spec(k), ValuesFor(k, rows[n].value.event)))]
  }

  lemma {:induction false} StripSized(k: Kind, rows: seq<EventRow>, cfg: Config)
    ensures Strip(SizedRows(k, rows, cfg)) == rows && |SizedRows(k, rows, cfg)| == |rows|
    ensures forall i :: 0 <= i < |rows| ==>
              SizedRows(k, rows, cfg)[i] == Sized(rows[i], MergeRow(cfg.Spec(k), ValuesFor(k, rows[i].value.event)))
  {
    hide MergeRow, ValuesFor;
    if rows != [] {
      var n := |rows| - 1;
      StripSized(k, rows[..n], cfg);
      var front := SizedRows(k, rows[..n], cfg);
      StripSnoc(front, Sized(rows[n], MergeRow(cfg.Spec(k), ValuesFor(k, rows[n].value.event))));
      assert rows == rows[..n] + [rows[n]];
    }
  }

  /** Every row of these items fits the statement of its table. */
  predicate AllFit(k: Kind, rows: seq<EventRow>, cfg: Config) {
    forall r :: r in rows ==> !RaisesInMerge(cfg.Spec(k), ValuesFor(k, r.value.event), cfg.maxBytes)
  }

  predicate AllPass(k: Kind, rows: seq<EventRow>, cfg: Config) {
    forall r :: r in rows ==> PassesCheck(cfg.Spec(k), ValuesFor(k, r.value.event), cfg.maxBytes)
  }

  lemma MergedNothing(t: EventTables, k: Kind)
    ensures t.Merged(k, []) == t
  {
    assert forall rows: seq<EventRow> :: rows + [] == rows;
  }

  lemma MergedInTwo(t: EventTables, k: Kind, rows: seq<EventRow>, n: nat, m: nat)
    requires Unique(rows) && n <= m <= |rows|
    ensures t.Merged(k, rows[..n]).Merged(k, rows[n..m]) == t.Merged(k, rows[..m])
  {
    hide Merge, Unique;
    MergeStretch(t.Of(k), rows, n, m);
  }

  lemma FitsIffFits(k: Kind, rows: seq<EventRow>, cfg: Config)
    ensures |SizedRows(k, rows, cfg)| == |rows|
    ensures (exists i :: 0 <= i < |rows| && !Fits(SizedRows(k, rows, cfg)[i], cfg.Limits(k))) <==> !AllFit(k, rows, cfg)
  {
    hide SizedRows, MergeRow, MergeFixed;
    StripSized(k, rows, cfg);
    var sized := SizedRows(k, rows, cfg);
    assert forall i :: 0 <= i < |rows| ==> (Fits(sized[i], cfg.Limits(k)) <==>
      !RaisesInMerge(cfg.Spec(k), ValuesFor(k, rows[i].value.event), cfg.maxBytes));
  }

  /** The statements of _merge_batches carry a prefix of the rows, all of them when none is oversize. */
  lemma WhatIsSent(k: Kind, rows: seq<EventRow>, cfg: Config)
    requires cfg.Valid()
    ensures var sized := SizedRows(k, rows, cfg);
            && Strip(sized) == rows && |sized| == |rows| && Concat(Sent(sized, cfg.Limits(k))) <= sized
            && ((forall i :: 0 <= i < |sized| ==> Fits(sized[i], cfg.Limits(k))) ==>
                  Concat(Sent(sized, cfg.Limits(k))) == sized)
  {
    hide SizedRows, Sent, Fits;
    StripSized(k, rows, cfg);
    SentIsPrefix(SizedRows(k, rows, cfg), cfg.Limits(k));
  }

  // ---------------------------------------------------------------- the statements

  function StatementsOf(k: Kind, sent: seq<seq<Sized<EventRow>>>): seq<Statement> {
    if sent == [] then []
    else StatementsOf(k, sent[..|sent| - 1]) + [Statement(k, Strip(sent[|sent| - 1]))]
  }

  function StatementsFor(k: Kind, rows: seq<EventRow>, cfg: Config): seq<Statement> {
    StatementsOf(k, Sent(SizedRows(k, rows, cfg), cfg.Limits(k)))
  }

  predicate NoOversize(k: Kind, rows: seq<EventRow>, cfg: Config) {
    FirstOversize(SizedRows(k, rows, cfg), cfg.Limits(k)) == |rows|
  }

  /** The checks made before any table is written. */
  predicate Checked(items: seq<EventRow>, cfg: Config) {
    && AllPass(Raw, items, cfg) && AllPass(Normalized, Parsed(items, true), cfg)
    && AllPass(Quarantine, Parsed(items, false), cfg)
  }

  /**
   * The statements of a run, and whether they are all of its work: none if a row fails the checks up front,
   * otherwise raw, normalized, quarantine, cut off where an oversize row raises.
   */
  function Plan(items: seq<EventRow>, cfg: Config): (seq<Statement>, bool) {
    var valid, invalid := Parsed(items, true), Parsed(items, false);
    var raw := StatementsFor(Raw, items, cfg);
    var normalized := raw + StatementsFor(Normalized, valid, cfg);
    if !Checked(items, cfg) then ([], false)
    else if !NoOversize(Raw, items, cfg) then (raw, false)
    else if !NoOversize(Normalized, valid, cfg) then (normalized, false)
    else (normalized + StatementsFor(Quarantine, invalid, cfg), NoOversize(Quarantine, invalid, cfg))
  }

  /** Input that an undisturbed run completes on: every row passes the early checks and the merge checks. */
  predicate Acceptable(items: seq<EventRow>, cfg: Config) {
    && Checked(items, cfg)
    && AllFit(Raw, items, cfg) && AllFit(Normalized, Parsed(items, true), cfg)
    && AllFit(Quarantine, Parsed(items, false), cfg)
  }

  lemma UncheckedPlan(items: seq<EventRow>, cfg: Config)
    requires !Checked(items, cfg)
    ensures Plan(items, cfg) == ([], false)
  {
  }

  /** Under the checks, the plan starts with the raw statements, then the normalized ones if no raw row is oversize. */
  lemma PlanStarts(items: seq<EventRow>, cfg: Config)
    requires Checked(items, cfg)
    ensures
      var raw, normalized := StatementsFor(Raw, items, cfg), StatementsFor(Normalized, Parsed(items, true), cfg);
      && raw <= Plan(items, cfg).0 && (!NoOversize(Raw, items, cfg) ==> Plan(items, cfg) == (raw, false))
      && (NoOversize(Raw, items, cfg) ==> raw + normalized <= Plan(items, cfg).0)
  {
    hide Parsed, Checked, StatementsFor, NoOversize;
  }

  lemma WholeIffAcceptable(items: seq<EventRow>, cfg: Config)
    ensures Plan(items, cfg).1 <==> Acceptable(items, cfg)
  {
    hide Parsed, AllPass, AllFit, FirstOversize, StatementsFor, SizedRows;
    NoOversizeIffFit(Raw, items, cfg);
    NoOversizeIffFit(Normalized, Parsed(items, true), cfg);
    NoOversizeIffFit(Quarantine, Parsed(items, false), cfg);
  }

  lemma NoOversizeIffFit(k: Kind, rows: seq<EventRow>, cfg: Config)
    ensures NoOversize(k, rows, cfg) <==> AllFit(k, rows, cfg)
  {
    hide SizedRows, AllFit, FirstOversize, Fits;
    FitsIffFits(k, rows, cfg);
  }

  // ---------------------------------------------------------------- sending them

  /** What a statement does to the tables. */
  function Send(t: EventTables, st: Statement): EventTables { t.Merged(st.kind, st.batch) }

  function SendAll(t: EventTables, plan: seq<Statement>): EventTables
    decreases |plan|
  {
    if plan == [] then t else SendAll(Send(t, plan[0]), plan[1..])
  }

  lemma {:induction false} SendAllOfTwo(t: EventTables, a: seq<Statement>, b: seq<Statement>)
    ensures SendAll(t, a + b) == SendAll(SendAll(t, a), b)
    decreases |a|
  {
    if a == [] {
      assert a + b == b;
    } else {
      assert (a + b)[1..] == a[1..] + b;
      SendAllOfTwo(Send(t, a[0]), a[1..], b);
    }
  }

  lemma {:induction false} SendAllStatements(t: EventTables, k: Kind, sent: seq<seq<Sized<EventRow>>>)
    requires Unique(Strip(Concat(sent)))
    ensures SendAll(t, StatementsOf(k, sent)) == t.Merged(k, Strip(Concat(sent)))
  {
    if sent == [] {
      MergedNothing(t, k);
    } else {
      hide Merge, Unique, SendAll, Strip;
      var n := |sent| - 1;
      var front, last := sent[..n], sent[n];
      var a, b := Strip(Concat(front)), Strip(last);
      StripOfTwo(Concat(front), last);
      UniquePrefix(a, b);
      SendAllStatements(t, k, front);
      SendAllOfTwo(t, StatementsOf(k, front), [Statement(k, b)]);
      SendOne(SendAll(t, StatementsOf(k, front)), Statement(k, b));
      MergeInTwo(t.Of(k), a, b);
    }
  }

  lemma SendOne(t: EventTables, st: Statement)
    ensures SendAll(t, [st]) == Send(t, st)
  {
    assert [st][1..] == [];
  }

  lemma SendAllFor(t: EventTables, k: Kind, rows: seq<EventRow>, cfg: Config)
    requires cfg.Valid() && Unique(rows) && NoOversize(k, rows, cfg)
    ensures SendAll(t, StatementsFor(k, rows, cfg)) == t.Merged(k, rows)
  {
    hide SizedRows, Sent, Strip, Concat, StatementsOf, Unique, Merge, SendAll, FirstOversize;
    StripSized(k, rows, cfg);
    SentIsPrefix(SizedRows(k, rows, cfg), cfg.Limits(k));
    SendAllStatements(t, k, Sent(SizedRows(k, rows, cfg), cfg.Limits(k)));
  }

  lemma SendNothing(t: EventTables)
    ensures SendAll(t, []) == t
  {
  }

  lemma SendAllCons(t: EventTables, plan: seq<Statement>)
    requires plan != []
    ensures SendAll(t, plan) == SendAll(Send(t, plan[0]), plan[1..])
  {
  }

  lemma SendAllSnoc(t: EventTables, plan: seq<Statement>, m: nat)
    requires m < |plan|
    ensures SendAll(t, plan[..m + 1]) == Send(SendAll(t, plan[..m]), plan[m])
  {
    hide Send;
    assert plan[..m + 1] == plan[..m] + [plan[m]];
    SendAllOfTwo(t, plan[..m], [plan[m]]);
    SendOne(SendAll(t, plan[..m]), plan[m]);
  }

  lemma SendAllPart(t: EventTables, a: seq<Statement>, b: seq<Statement>, m: nat)
    requires m <= |b|
    ensures SendAll(t, (a + b)[..|a| + m]) == SendAll(SendAll(t, a), b[..m])
  {
    hide SendAll;
    assert (a + b)[..|a| + m] == a + b[..m];
    SendAllOfTwo(t, a, b[..m]);
  }

  lemma {:induction false} StatementsAt(k: Kind, sent: seq<seq<Sized<EventRow>>>)
    ensures |StatementsOf(k, sent)| == |sent|
    ensures forall i :: 0 <= i < |sent| ==> StatementsOf(k, sent)[i] == Statement(k, Strip(sent[i]))
  {
    hide Strip;
    if sent != [] { StatementsAt(k, sent[..|sent| - 1]); }
  }
}
