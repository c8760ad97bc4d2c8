/** One run on its own: the run of TrinoRuns as a path of the steps of Writers. */
module SoloRun {
  import opened Prelude
  import opened Tables
  import opened Lake
  import opened Plans
  import opened TrinoRuns
  import opened Writers

  /** Sending a whole plan is merging the three tables. */
  lemma WholePlanCompletes(t: EventTables, received: seq<Event>, run: nat, cfg: Config)
    requires cfg.Valid() && NewWriter(received, run, cfg).whole
    ensures SendAll(t, NewWriter(received, run, cfg).plan) == Completion(t, Items(received, run))
  {
    hide Items, Parsed, StatementsFor, NoOversize, Unique, Merge, SendAll;
    var items := Items(received, run);
    var valid, invalid := Parsed(items, true), Parsed(items, false);
    ItemsOwned(received, run);
    ParsedRows(items, true);
    ParsedRows(items, false);
    var a, b := StatementsFor(Raw, items, cfg), StatementsFor(Normalized, valid, cfg);
    var c := StatementsFor(Quarantine, invalid, cfg);
    SendAllOfTwo(t, a + b, c);
    SendAllOfTwo(t, a, b);
    SendAllFor(t, Raw, items, cfg);
    SendAllFor(t.Merged(Raw, items), Normalized, valid, cfg);
    SendAllFor(t.Merged(Raw, items).Merged(Normalized, valid), Quarantine, invalid, cfg);
  }

  /** Acknowledge n statements of run w, then end it. */
  function EndAfter(w: nat, n: nat, finished: bool): seq<Step> {
    if n == 0 then [if finished then Finish(w) else Die(w)] else [Advance(w)] + EndAfter(w, n - 1, finished)
  }

  /** The phase of a run that ends on these tables. */
  function EndPhase(t: EventTables, received: seq<Event>, w: nat, finished: bool): Phase {
    var items := Items(received, w);
    var c, q := CountForRun(t.normalized, w), CountForRun(t.quarantine, w);
    if finished then Finished(c, q, (|received| - |items|) + |items| - c - q) else Dead
  }

  lemma LeadsOn(s: State, step: Step, rest: seq<Step>, to: State, cfg: Config)
    requires Enabled(s, step) && Leads(Next(s, step, cfg), rest, to, cfg)
    ensures Leads(s, [step] + rest, to, cfg)
  {
    hide Enabled, Next;
    assert ([step] + rest)[1..] == rest;
  }

  lemma EndsNow(s: State, w: nat, finished: bool, cfg: Config) returns (to: State)
    requires w < |s.writers| && s.writers[w].phase == Working
    requires finished ==> s.writers[w].whole && s.writers[w].done == |s.writers[w].plan|
    ensures Leads(s, EndAfter(w, 0, finished), to, cfg) && to.tables == s.tables
    ensures to.writers == s.writers[w := s.writers[w].(phase := EndPhase(s.tables, s.writers[w].received, w, finished))]
  {
    hide Items, CountForRun;
    var steps := EndAfter(w, 0, finished);
    to := Next(s, steps[0], cfg);
    assert steps[1..] == [];
  }

  lemma {:induction false} AdvanceToTheEnd(s: State, w: nat, n: nat, finished: bool, cfg: Config) returns (to: State)
    requires w < |s.writers| && s.writers[w].phase == Working && s.writers[w].done + n <= |s.writers[w].plan|
    requires finished ==> s.writers[w].whole && s.writers[w].done + n == |s.writers[w].plan|
    ensures Leads(s, EndAfter(w, n, finished), to, cfg)
    ensures var writer := s.writers[w];
            && to.tables == SendAll(s.tables, writer.plan[writer.done..writer.done + n])
            && to.writers == s.writers[w := writer.(done := writer.done + n,
                                                    phase := EndPhase(to.tables, writer.received, w, finished))]
    decreases n
  {
    hide Items, CountForRun, Merge, SendAll, Plans.Send, EndPhase, Leads;
    var writer := s.writers[w];
    var rest := writer.plan[writer.done..writer.done + n];
    if n == 0 {
      to := EndsNow(s, w, finished, cfg);
      assert rest == [];
      SendNothing(s.tables);
    } else {
      var mid := State(Plans.Send(s.tables, writer.plan[writer.done]),
                       s.writers[w := writer.(done := writer.done + 1)]);
      assert Enabled(s, Advance(w)) && Next(s, Advance(w), cfg) == mid;
      to := AdvanceToTheEnd(mid, w, n - 1, finished, cfg);
      LeadsOn(s, Advance(w), EndAfter(w, n - 1, finished), to, cfg);
      assert rest[1..] == mid.writers[w].plan[writer.done + 1..writer.done + n];
      SendAllCons(s.tables, rest);
    }
  }

  /**
   * A run that stores the first `sent` statements of its plan and then finishes or dies is a path of the
   * transition system, in which no other run takes a step.
   */
  lemma RunIsPath(s: State, received: seq<Event>, sent: nat, finished: bool, cfg: Config)
      returns (steps: seq<Step>, to: State)
    requires received != [] && !AnyBlank(received)
    requires sent <= |Plan(Items(received, |s.writers|), cfg).0|
    requires finished ==>
               Plan(Items(received, |s.writers|), cfg).1 && sent == |Plan(Items(received, |s.writers|), cfg).0|
    ensures Leads(s, steps, to, cfg)
    ensures to.tables == SendAll(s.tables, Plan(Items(received, |s.writers|), cfg).0[..sent])
    ensures |to.writers| == |s.writers| + 1 && to.writers[..|s.writers|] == s.writers
    ensures var w := |s.writers|;
            to.writers[w].received == received && to.writers[w].phase == EndPhase(to.tables, received, w, finished)
  {
    hide Items, CountForRun, SendAll, Plan, Leads, AnyBlank;
    var w := |s.writers|;
    var started := Next(s, Start(received), cfg);
    to := AdvanceToTheEnd(started, w, sent, finished, cfg);
    steps := [Start(received)] + EndAfter(w, sent, finished);
    LeadsOn(s, Start(received), EndAfter(w, sent, finished), to, cfg);
  }

  /**
   * Started alone and left undisturbed, a run of acceptable input reaches the tables and the numbers that
   * ingest_events reports.
   */
  lemma AloneIsIngest(s: State, received: seq<Event>, cfg: Config) returns (steps: seq<Step>, to: State)
    requires cfg.Valid() && received != [] && !AnyBlank(received)
    requires Acceptable(Items(received, |s.writers|), cfg)
    ensures Leads(s, steps, to, cfg) && |to.writers| == |s.writers| + 1
    ensures to.tables == Completion(s.tables, Items(received, |s.writers|))
    ensures var r := Report(s.tables, received, |s.writers|);
            to.writers[|s.writers|].phase == Finished(r.committed, r.quarantined, r.duplicates)
  {
    hide Items, Parsed, CountForRun, Merge, SendAll, Plan, Acceptable;
    var plan := Plan(Items(received, |s.writers|), cfg).0;
    WholeIffAcceptable(Items(received, |s.writers|), cfg);
    steps, to := RunIsPath(s, received, |plan|, true, cfg);
    assert plan[..|plan|] == plan;
    WholePlanCompletes(s.tables, received, |s.writers|, cfg);
  }

  /** Whatever becomes of its statements, a call of ingest_events is such a path. */
  method IngestOnce(trino: Trino, received: seq<Event>, ghost s: State)
      returns (r: Result<IngestionResult, IngestError>, ghost steps: seq<Step>, ghost to: State)
    requires trino.Valid() && s.tables == trino.store.tables && |s.writers| == trino.issued
    modifies trino
    ensures trino.Valid() && Leads(s, steps, to, trino.cfg)
    ensures to.tables == trino.store.tables && |to.writers| == trino.issued
    ensures received != [] && r.Success? ==>
              && |to.writers| == |s.writers| + 1
              && to.writers[|s.writers|].phase == Finished(r.value.committed, r.value.quarantined, r.value.duplicates)
  {
    hide Items, Parsed, CountForRun, Merge, SendAll, Plan, Acceptable, Leads, Reached, Sound, Grows;
    ghost var reach, sent;
    r, reach, sent := trino.IngestEvents(received);
    if received == [] || AnyBlank(received) {
      steps, to := [], s;
      NoSteps(s, trino.cfg);
    } else {
      WholeIffAcceptable(Items(received, |s.writers|), trino.cfg);
      steps, to := RunIsPath(s, received, sent, r.Success?, trino.cfg);
    }
  }

  lemma NoSteps(s: State, cfg: Config)
    ensures Leads(s, [], s, cfg)
  {
  }
}
