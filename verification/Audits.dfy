/** The audit rows of interleaved runs: what ingestion_runs says while any number of runs share the tables. */
module Audits {
  import opened Prelude
  import opened Tables
  import opened Lake
  import opened Plans
  import opened TrinoRuns
  import W = Writers

  datatype Numbers = Numbers(committed: nat, quarantined: nat, duplicates: int)

  /** What a run knows: whether its first row was acknowledged, and what it counted after its merges. */
  datatype Progress = Progress(entered: bool, counted: Option<Numbers>)

  datatype State = State(lake: W.State, progress: seq<Progress>, runs: map<nat, RunRow>)

  /** A write that is not acknowledged may take effect any time, also after the run gave up on it. */
  datatype Step =
    | LakeStep(step: W.Step)
    | Insert(w: nat, acknowledged: bool)
    | Count(w: nat)
    | Finish(w: nat, acknowledged: bool)
    | Fail(w: nat)

  ghost predicate Enabled(s: State, step: Step)
    requires |s.progress| == |s.lake.writers|
  {
    match step
    case LakeStep(step) =>
      && W.Enabled(s.lake, step) && !step.Finish?
      && (step.Land? || step.Advance? ==> s.progress[step.w].entered)
    case Insert(w, acknowledged) => w < |s.lake.writers| && (acknowledged ==> s.lake.writers[w].phase == W.Working)
    case Count(w) => W.Enabled(s.lake, W.Finish(w)) && s.progress[w].entered
    case Finish(w, acknowledged) =>
      w < |s.lake.writers| && s.progress[w].counted.Some? && (acknowledged ==> W.Enabled(s.lake, W.Finish(w)))
    case Fail(w) => w < |s.lake.writers| && s.lake.writers[w].phase == W.Dead
  }

  /** The row a run starts with. */
  function FirstRow(received: seq<Event>): RunRow { RunRow(Running, |received|, 0, Unparsed(received), 0) }

  /** What a run counts once its statements are all acknowledged. */
  function Counted(t: EventTables, received: seq<Event>, w: nat): Numbers {
    var committed, quarantined := CountForRun(t.normalized, w), CountForRun(t.quarantine, w);
    Numbers(committed, quarantined, |received| - committed - quarantined)
  }

  /** The write that concludes a run with the numbers it counted. */
  function Conclusion(w: nat, n: Numbers): Write {
    FinishRun(w, if n.quarantined > 0 then CompletedWithQuarantine else Completed, n.committed, n.quarantined,
              n.duplicates)
  }

  function Recorded(s: State, write: Write): map<nat, RunRow> { Apply(Store(s.lake.tables, s.runs), write).runs }

  ghost function Next(s: State, step: Step, cfg: Config): State
    requires |s.progress| == |s.lake.writers| && Enabled(s, step)
  {
    match step
    case LakeStep(step) =>
      s.(lake := W.Next(s.lake, step, cfg),
         progress := s.progress + if step.Start? then [Progress(false, None)] else [])
    case Insert(w, acknowledged) =>
      s.(runs := Recorded(s, InsertRun(w, FirstRow(s.lake.writers[w].received))),
         progress := s.progress[w := s.progress[w].(entered := s.progress[w].entered || acknowledged)])
    case Count(w) =>
      var n := Counted(s.lake.tables, s.lake.writers[w].received, w);
      s.(progress := s.progress[w := s.progress[w].(counted := Some(n))])
    case Finish(w, acknowledged) =>
      s.(runs := Recorded(s, Conclusion(w, s.progress[w].counted.value)),
         lake := if acknowledged then W.Next(s.lake, W.Finish(w), cfg) else s.lake)
    case Fail(w) => s.(runs := Recorded(s, FinishRun(w, Failed, 0, 0, 0)))
  }

  // ---------------------------------------------------------------- the invariant

  /** Counted numbers are those of all the run's rows, and all its statements were acknowledged. */
  ghost predicate CountedSound(t: EventTables, writer: W.Writer, w: nat, counted: Option<Numbers>) {
    && (writer.phase.Finished? ==>
          counted == Some(Numbers(writer.phase.committed, writer.phase.quarantined, writer.phase.duplicates)))
    && (counted.Some? ==>
          writer.whole && writer.done == |writer.plan| && counted.value == Counted(t, writer.received, w))
  }

  /** The row says running, failed, or completed with the counted numbers; a finished run's row says completed. */
  ghost predicate RowSound(row: RunRow, writer: W.Writer, w: nat, counted: Option<Numbers>) {
    && row.received == |writer.received|
    && (match row.status
        case Running => row == FirstRow(writer.received)
        case Failed => row == RunRow(Failed, |writer.received|, 0, 0, 0)
        case Empty => false
        case _ =>
          && counted.Some? && row.status == Conclusion(w, counted.value).status
          && row == RunRow(row.status, row.received, counted.value.committed, counted.value.quarantined,
                           counted.value.duplicates))
    && (writer.phase.Finished? ==> row.status in {Completed, CompletedWithQuarantine})
  }

  ghost predicate NumbersSound(s: State)
    requires |s.progress| == |s.lake.writers|
  {
    forall w: nat :: w < |s.lake.writers| ==> CountedSound(s.lake.tables, s.lake.writers[w], w, s.progress[w].counted)
  }

  ghost predicate RowsSound(s: State)
    requires |s.progress| == |s.lake.writers|
  {
    && (forall w :: w in s.runs ==>
          w < |s.progress| && RowSound(s.runs[w], s.lake.writers[w], w, s.progress[w].counted))
    && (forall w: nat :: w < |s.progress| && (s.progress[w].entered || s.progress[w].counted.Some?) ==> w in s.runs)
  }

  /** Whatever is stored names a run that has an audit row. */
  ghost predicate Traceable(t: EventTables, runs: map<nat, RunRow>) {
    forall k: Kind, r :: r in t.Of(k) ==> r.value.run in runs
  }

  ghost predicate Inv(s: State) {
    && W.Inv(s.lake) && |s.progress| == |s.lake.writers|
    && NumbersSound(s) && RowsSound(s) && Traceable(s.lake.tables, s.runs)
  }

  lemma CountedKept(t: EventTables, st: Statement, writer: W.Writer, w: nat, counted: Option<Numbers>)
    requires CountedSound(t, writer, w, counted) && forall r :: r in st.batch ==> r.value.run != w
    ensures CountedSound(Send(t, st), writer, w, counted)
  {
    hide Merge, CountForRun;
    MergeOfAnother(t.Of(st.kind), st.batch, w);
  }

  lemma RowKept(row: RunRow, a: W.Writer, b: W.Writer, w: nat, counted: Option<Numbers>)
    requires RowSound(row, a, w, counted) && a.received == b.received && a.phase == b.phase
    ensures RowSound(row, b, w, counted)
  {
    hide Unparsed;
  }

  /** A statement of run w, acknowledged or not. */
  lemma SendKeeps(s: State, w: nat, ack: bool, cfg: Config)
    requires Inv(s) && cfg.Valid() && Enabled(s, LakeStep(if ack then W.Advance(w) else W.Land(w)))
    ensures Inv(Next(s, LakeStep(if ack then W.Advance(w) else W.Land(w)), cfg))
  {
    hide W.Inv, CountForRun, Merge, RowSound, CountedSound;
    var writer := s.lake.writers[w];
    var st := writer.plan[writer.done];
    W.StepKeeps(s.lake, if ack then W.Advance(w) else W.Land(w), cfg);
    StatementOf(s.lake, w);
    var s' := Next(s, LakeStep(if ack then W.Advance(w) else W.Land(w)), cfg);
    NumbersKept(s, w, ack, s');
    forall v | v in s.runs ensures RowSound(s.runs[v], s'.lake.writers[v], v, s.progress[v].counted) {
      RowKept(s.runs[v], s.lake.writers[v], s'.lake.writers[v], v, s.progress[v].counted);
    }
    MergeKeys(s.lake.tables.Of(st.kind), st.batch);
  }

  lemma NumbersKept(s: State, w: nat, ack: bool, s': State)
    requires |s.progress| == |s.lake.writers| && NumbersSound(s) && w < |s.lake.writers|
    requires s.lake.writers[w].done < |s.lake.writers[w].plan|
    requires forall r :: r in s.lake.writers[w].plan[s.lake.writers[w].done].batch ==> r.value.run == w
    requires
      var writer := s.lake.writers[w];
      s' == s.(lake := W.State(Send(s.lake.tables, writer.plan[writer.done]),
                               s.lake.writers[w := writer.(done := if ack then writer.done + 1 else writer.done)]))
    ensures NumbersSound(s')
  {
    hide CountForRun, Merge;
    var writer := s.lake.writers[w];
    forall v: nat | v < |s.lake.writers|
      ensures CountedSound(s'.lake.tables, s'.lake.writers[v], v, s'.progress[v].counted)
    {
      if v != w { CountedKept(s.lake.tables, writer.plan[writer.done], s.lake.writers[v], v, s.progress[v].counted); }
    }
  }

  lemma StatementOf(lake: W.State, w: nat)
    requires W.Inv(lake) && w < |lake.writers| && lake.writers[w].done < |lake.writers[w].plan|
    ensures forall r :: r in lake.writers[w].plan[lake.writers[w].done].batch ==> r.value.run == w
  {
    hide Items, Parsed, Keys, CountForRun;
    var writer := lake.writers[w];
    assert W.WriterSound(lake.tables, writer, w);
    W.BatchStamped(writer, w, writer.plan[writer.done]);
  }

  lemma LakeStepKeeps(s: State, step: W.Step, cfg: Config)
    requires Inv(s) && cfg.Valid() && Enabled(s, LakeStep(step)) && (step.Start? || step.Die?)
    ensures Inv(Next(s, LakeStep(step), cfg))
  {
    hide W.Inv, CountForRun, Plan, Items, Unparsed;
    W.StepKeeps(s.lake, step, cfg);
  }

  lemma RowSet(s: State, w: nat, row: RunRow)
    requires Inv(s) && w < |s.progress| && RowSound(row, s.lake.writers[w], w, s.progress[w].counted)
    ensures Inv(s.(runs := s.runs[w := row]))
  {
    hide W.Inv, CountedSound, RowSound;
  }

  lemma NoRowYet(s: State, w: nat)
    requires Inv(s) && w < |s.progress| && w !in s.runs
    ensures RowSound(FirstRow(s.lake.writers[w].received), s.lake.writers[w], w, s.progress[w].counted)
  {
    hide W.Inv, CountForRun, Unparsed;
    assert CountedSound(s.lake.tables, s.lake.writers[w], w, s.progress[w].counted);
  }

  lemma Entered(s: State, w: nat)
    requires Inv(s) && w in s.runs
    ensures Inv(s.(progress := s.progress[w := s.progress[w].(entered := true)]))
  {
    hide W.Inv, CountedSound, RowSound;
  }

  lemma InsertKeeps(s: State, w: nat, acknowledged: bool, cfg: Config)
    requires Inv(s) && Enabled(s, Insert(w, acknowledged))
    ensures Inv(Next(s, Insert(w, acknowledged), cfg))
  {
    hide W.Inv, NumbersSound, RowsSound, RowSound, Traceable, FirstRow;
    var row := FirstRow(s.lake.writers[w].received);
    if w !in s.runs {
      NoRowYet(s, w);
      RowSet(s, w, row);
    }
    var s' := s.(runs := if w in s.runs then s.runs else s.runs[w := row]);
    if acknowledged { Entered(s', w); }
    assert s'.progress[w := s'.progress[w]] == s'.progress;
  }

  lemma CountKeeps(s: State, w: nat, cfg: Config)
    requires Inv(s) && Enabled(s, Count(w))
    ensures Inv(Next(s, Count(w), cfg))
  {
    hide W.Inv, Unparsed, CountForRun;
  }

  lemma FinishKeeps(s: State, w: nat, acknowledged: bool, cfg: Config)
    requires Inv(s) && cfg.Valid() && Enabled(s, Finish(w, acknowledged))
    ensures Inv(Next(s, Finish(w, acknowledged), cfg))
  {
    hide W.Inv, CountForRun, Unparsed, Items, Merge;
    var n := s.progress[w].counted.value;
    var row := RunRow(Conclusion(w, n).status, s.runs[w].received, n.committed, n.quarantined, n.duplicates);
    RowSet(s, w, row);
    if acknowledged {
      W.StepKeeps(s.lake, W.Finish(w), cfg);
    }
  }

  lemma FailKeeps(s: State, w: nat, cfg: Config)
    requires Inv(s) && Enabled(s, Fail(w))
    ensures Inv(Next(s, Fail(w), cfg))
  {
    hide W.Inv, CountedSound, Merge, Unparsed;
    if w in s.runs { RowSet(s, w, RunRow(Failed, s.runs[w].received, 0, 0, 0)); }
  }

  /** Every write of every run, acknowledged or not, keeps all audit rows true. */
  lemma StepKeeps(s: State, step: Step, cfg: Config)
    requires Inv(s) && cfg.Valid() && Enabled(s, step)
    ensures Inv(Next(s, step, cfg))
  {
    hide Inv;
    match step
    case LakeStep(step) =>
      if step.Land? || step.Advance? { SendKeeps(s, step.w, step.Advance?, cfg); } else { LakeStepKeeps(s, step, cfg); }
    case Insert(w, acknowledged) => InsertKeeps(s, w, acknowledged, cfg);
    case Count(w) => CountKeeps(s, w, cfg);
    case Finish(w, acknowledged) => FinishKeeps(s, w, acknowledged, cfg);
    case Fail(w) => FailKeeps(s, w, cfg);
  }

  // ---------------------------------------------------------------- whole runs

  ghost predicate History(states: seq<State>, steps: seq<Step>, cfg: Config) {
    && |states| == |steps| + 1 && (forall i :: 0 <= i < |states| ==> |states[i].progress| == |states[i].lake.writers|)
    && forall i :: 0 <= i < |steps| ==> Enabled(states[i], steps[i]) && states[i + 1] == Next(states[i], steps[i], cfg)
  }

  lemma {:induction false} HistoryKeeps(states: seq<State>, steps: seq<Step>, cfg: Config, n: nat)
    requires History(states, steps, cfg) && cfg.Valid() && Inv(states[0]) && n < |states|
    ensures Inv(states[n])
  {
    hide Inv, Next, Enabled;
    if n > 0 {
      HistoryKeeps(states, steps, cfg, n - 1);
      StepKeeps(states[n - 1], steps[n - 1], cfg);
    }
  }

  /** What happens to the tables and the runs is a history of Writers: the audit rows only watch. */
  lemma {:induction false} LakeHistory(states: seq<State>, steps: seq<Step>, cfg: Config, n: nat)
      returns (lakeSteps: seq<W.Step>)
    requires History(states, steps, cfg) && n < |states|
    ensures W.Leads(states[0].lake, lakeSteps, states[n].lake, cfg)
  {
    hide W.Next;
    if n == 0 {
      lakeSteps := [];
    } else {
      var s, step := states[n - 1], steps[n - 1];
      lakeSteps := LakeHistory(states, steps, cfg, n - 1);
      if step.LakeStep? {
        LeadsSnoc(states[0].lake, lakeSteps, s.lake, step.step, cfg);
        lakeSteps := lakeSteps + [step.step];
      } else if step.Finish? && step.acknowledged {
        LeadsSnoc(states[0].lake, lakeSteps, s.lake, W.Finish(step.w), cfg);
        lakeSteps := lakeSteps + [W.Finish(step.w)];
      }
    }
  }

  lemma {:induction false} LeadsSnoc(start: W.State, steps: seq<W.Step>, mid: W.State, step: W.Step, cfg: Config)
    requires W.Leads(start, steps, mid, cfg) && W.Enabled(mid, step)
    ensures W.Leads(start, steps + [step], W.Next(mid, step, cfg), cfg)
    decreases |steps|
  {
    hide W.Next, W.Enabled;
    if steps == [] {
      assert [step][1..] == [];
    } else {
      LeadsSnoc(W.Next(start, steps[0], cfg), steps[1..], mid, step, cfg);
      assert (steps + [step])[1..] == steps[1..] + [step];
    }
  }

  /**
   * In every reachable state an audit row that says completed belongs to a run whose every row is in its tables;
   * its numbers are those of the rows stamped with the run, now and ever after, and add up to what was received.
   * A row that does not say so claims no committed row. A run that reported success has such a row, and no row
   * of any table lacks the audit row of its run.
   */
  lemma AuditRowsAreTrue(states: seq<State>, steps: seq<Step>, cfg: Config, n: nat, w: nat)
    requires History(states, steps, cfg) && cfg.Valid() && Inv(states[0]) && n < |states|
    ensures
      var t, runs, writers := states[n].lake.tables, states[n].runs, states[n].lake.writers;
      && (forall k: Kind, r :: r in t.Of(k) ==> r.value.run in runs)
      && (w < |writers| && writers[w].phase.Finished? ==>
            w in runs && runs[w].status in {Completed, CompletedWithQuarantine})
      && (w in runs ==>
            && w < |writers| && runs[w].received == |writers[w].received|
            && if runs[w].status in {Completed, CompletedWithQuarantine} then
                 && (forall k: Kind :: Keys(RowsFor(k, Items(writers[w].received, w))) <= Keys(t.Of(k)))
                 && runs[w].committed == CountForRun(t.normalized, w)
                 && runs[w].quarantined == CountForRun(t.quarantine, w)
                 && (runs[w].status == CompletedWithQuarantine <==> runs[w].quarantined > 0)
                 && runs[w].received == runs[w].committed + runs[w].quarantined + runs[w].duplicates
               else runs[w].status in {Running, Failed} && runs[w].committed == 0 && runs[w].duplicates == 0)
  {
    hide Enabled, Next, Items, Unparsed, CountForRun, Keys, W.Inv;
    var s := states[n];
    HistoryKeeps(states, steps, cfg, n);
    if w < |s.lake.writers| {
      assert CountedSound(s.lake.tables, s.lake.writers[w], w, s.progress[w].counted);
      if s.progress[w].counted.Some? { WholeRunStored(s.lake, w); }
    }
  }

  lemma WholeRunStored(lake: W.State, w: nat)
    requires W.Inv(lake) && w < |lake.writers| && lake.writers[w].whole
             && lake.writers[w].done == |lake.writers[w].plan|
    ensures forall k: Kind :: Keys(RowsFor(k, Items(lake.writers[w].received, w))) <= Keys(lake.tables.Of(k))
  {
    hide Items, RowsFor, Keys, Unique, W.Carried;
    assert W.WriterSound(lake.tables, lake.writers[w], w);
  }

  lemma NothingYet()
    ensures Inv(State(W.INITIAL, [], map[]))
  {
    W.InitialSound();
  }

  // ---------------------------------------------------------------- ingest_events as such a history

  datatype Trail = Trail(states: seq<State>, steps: seq<Step>) {
    ghost predicate Proper(cfg: Config) {
      states != [] && |Tip().progress| == |Tip().lake.writers| && History(states, steps, cfg)
    }

    ghost predicate Extends(earlier: Trail) { earlier.states <= states && earlier.steps <= steps }

    ghost function Tip(): State
      requires states != []
    {
      states[|states| - 1]
    }

    ghost function Then(step: Step, cfg: Config): Trail
      requires states != [] && |Tip().progress| == |Tip().lake.writers| && Enabled(Tip(), step)
    {
      Trail(states + [Next(Tip(), step, cfg)], steps + [step])
    }
  }

  lemma NextAligned(s: State, step: Step, cfg: Config)
    requires |s.progress| == |s.lake.writers| && Enabled(s, step)
    ensures |Next(s, step, cfg).progress| == |Next(s, step, cfg).lake.writers|
  {
    hide Plan, Items, CountForRun, Merge, Unparsed;
  }

  lemma ThenProper(t: Trail, step: Step, cfg: Config)
    requires t.Proper(cfg) && Enabled(t.Tip(), step)
    ensures t.Then(step, cfg).Proper(cfg) && t.Then(step, cfg).Tip() == Next(t.Tip(), step, cfg)
            && t.Then(step, cfg).Extends(t)
  {
    hide Enabled, Next;
    NextAligned(t.Tip(), step, cfg);
  }

  /** The run inserts its row, and its first n statements are acknowledged. */
  function Opened(s: State, received: seq<Event>, n: nat, cfg: Config): State
    requires n <= |Plan(Items(received, |s.lake.writers|), cfg).0|
  {
    var w := |s.lake.writers|;
    var lake := W.State(s.lake.tables, s.lake.writers + [W.NewWriter(received, w, cfg)]);
    State(W.Advanced(lake, w, n), s.progress + [Progress(true, None)], s.runs[w := FirstRow(received)])
  }

  lemma Starts(t: Trail, received: seq<Event>, cfg: Config) returns (t': Trail)
    requires t.Proper(cfg) && received != [] && !AnyBlank(received) && |t.Tip().lake.writers| !in t.Tip().runs
    ensures t'.Proper(cfg) && t'.Extends(t) && t'.Tip() == Opened(t.Tip(), received, 0, cfg)
  {
    hide Items, Plan, Merge, SendAll, Unparsed, AnyBlank, CountForRun, History;
    var w := |t.Tip().lake.writers|;
    SendNothing(t.Tip().lake.tables);
    ThenProper(t, LakeStep(W.Start(received)), cfg);
    t' := t.Then(LakeStep(W.Start(received)), cfg);
    ThenProper(t', Insert(w, true), cfg);
    t' := t'.Then(Insert(w, true), cfg);
  }

  lemma {:induction false} Opens(t: Trail, received: seq<Event>, n: nat, cfg: Config) returns (t': Trail)
    requires t.Proper(cfg) && received != [] && !AnyBlank(received)
    requires |t.Tip().lake.writers| !in t.Tip().runs && n <= |Plan(Items(received, |t.Tip().lake.writers|), cfg).0|
    ensures t'.Proper(cfg) && t'.Extends(t) && t'.Tip() == Opened(t.Tip(), received, n, cfg)
    decreases n
  {
    hide Items, Plan, Merge, SendAll, Unparsed, AnyBlank, CountForRun, History;
    var s, w := t.Tip(), |t.Tip().lake.writers|;
    if n == 0 {
      t' := Starts(t, received, cfg);
    } else {
      t' := Opens(t, received, n - 1, cfg);
      W.AdvancedStep(W.State(s.lake.tables, s.lake.writers + [W.NewWriter(received, w, cfg)]), w, n - 1, cfg);
      ThenProper(t', LakeStep(W.Advance(w)), cfg);
      t' := t'.Then(LakeStep(W.Advance(w)), cfg);
    }
  }

  /** The run gives up, and the row says so if that write takes effect. */
  lemma Dies(t: Trail, w: nat, recorded: bool, cfg: Config) returns (t': Trail)
    requires t.Proper(cfg) && w < |t.Tip().lake.writers| && t.Tip().lake.writers[w].phase == W.Working
    ensures t'.Proper(cfg) && t'.Extends(t)
    ensures
      var s, s' := t.Tip(), t'.Tip();
      && s'.lake.tables == s.lake.tables && |s'.lake.writers| == |s.lake.writers|
      && s'.runs == if recorded && w in s.runs then s.runs[w := RunRow(Failed, s.runs[w].received, 0, 0, 0)] else s.runs
  {
    hide Items, Plan, Merge, CountForRun, History;
    ThenProper(t, LakeStep(W.Die(w)), cfg);
    t' := t.Then(LakeStep(W.Die(w)), cfg);
    if recorded {
      ThenProper(t', Fail(w), cfg);
      t' := t'.Then(Fail(w), cfg);
    }
  }

  /** The run counts and concludes; if it does not learn that its row was written, it dies. */
  lemma Concludes(t: Trail, w: nat, finished: bool, cfg: Config) returns (t': Trail)
    requires t.Proper(cfg) && W.Enabled(t.Tip().lake, W.Finish(w)) && t.Tip().progress[w].entered && w in t.Tip().runs
    ensures t'.Proper(cfg) && t'.Extends(t)
    ensures
      var s, s' := t.Tip(), t'.Tip();
      var n := Counted(s.lake.tables, s.lake.writers[w].received, w);
      && s'.lake.tables == s.lake.tables && |s'.lake.writers| == |s.lake.writers|
      && s'.runs == s.runs[w := RunRow(Conclusion(w, n).status, s.runs[w].received, n.committed, n.quarantined,
                                       n.duplicates)]
      && (finished ==> s'.lake.writers[w].phase == W.Finished(n.committed, n.quarantined, n.duplicates))
  {
    hide Items, Plan, Merge, CountForRun, History;
    ThenProper(t, Count(w), cfg);
    t' := t.Then(Count(w), cfg);
    ThenProper(t', Finish(w, finished), cfg);
    t' := t'.Then(Finish(w, finished), cfg);
    if !finished { t' := Dies(t', w, false, cfg); }
  }

  /** A run whose audit row ends up as `row`, or never appears, as a stretch of the history. */
  lemma RunIsHistory(t: Trail, received: seq<Event>, sent: nat, row: Option<RunRow>, finished: bool, cfg: Config)
      returns (t': Trail)
    requires t.Proper(cfg) && cfg.Valid() && received != [] && !AnyBlank(received)
    requires |t.Tip().lake.writers| !in t.Tip().runs && sent <= |Plan(Items(received, |t.Tip().lake.writers|), cfg).0|
    requires
      var s, w := t.Tip(), |t.Tip().lake.writers|;
      var (plan, whole) := Plan(Items(received, w), cfg);
      && (row.None? ==> sent == 0)
      && (row.Some? ==> AuditFits(row.value, s.lake.tables, SendAll(s.lake.tables, plan[..sent]), received, w))
      && (row.Some? && Completes(row.value) ==> sent == |plan| && whole)
      && (finished ==> row.Some? && Completes(row.value))
    ensures t'.Proper(cfg) && t'.Extends(t)
    ensures
      var s, s', w := t.Tip(), t'.Tip(), |t.Tip().lake.writers|;
      && s'.lake.tables == SendAll(s.lake.tables, Plan(Items(received, w), cfg).0[..sent])
      && s'.runs == (if row.None? then s.runs else s.runs[w := row.value]) && |s'.lake.writers| == w + 1
      && (finished ==>
            s'.lake.writers[w].phase == W.Finished(row.value.committed, row.value.quarantined, row.value.duplicates))
  {
    hide Items, Plan, Merge, CountForRun, History, SendAll, Unparsed, AnyBlank, Completion;
    var s, w := t.Tip(), |t.Tip().lake.writers|;
    if row.None? {
      SendNothing(s.lake.tables);
      ThenProper(t, LakeStep(W.Start(received)), cfg);
      t' := t.Then(LakeStep(W.Start(received)), cfg);
      t' := Dies(t', w, false, cfg);
    } else {
      t' := Opens(t, received, sent, cfg);
      if Completes(row.value) {
        t' := Concludes(t', w, finished, cfg);
      } else {
        t' := Dies(t', w, row.value.status == Failed, cfg);
      }
    }
  }

  ghost predicate Matches(s: State, trino: Trino)
    reads trino
  {
    s.lake.tables == trino.store.tables && s.runs == trino.store.runs && |s.lake.writers| == trino.issued
  }

  /** Whatever becomes of its statements, a call of ingest_events is a stretch of such a history, audit row included. */
  method IngestOnce(trino: Trino, received: seq<Event>, ghost t: Trail)
      returns (r: Result<IngestionResult, IngestError>, ghost t': Trail)
    requires trino.Valid() && t.Proper(trino.cfg) && Matches(t.Tip(), trino)
    modifies trino
    ensures trino.Valid() && t'.Proper(trino.cfg) && t'.Extends(t) && Matches(t'.Tip(), trino)
    ensures received != [] && r.Success? ==>
              && |t'.Tip().lake.writers| == |t.Tip().lake.writers| + 1
              && t'.Tip().lake.writers[|t.Tip().lake.writers|].phase
                 == W.Finished(r.value.committed, r.value.quarantined, r.value.duplicates)
  {
    hide Items, Parsed, CountForRun, Merge, SendAll, Plan, Acceptable, Reached, Sound, Grows, History, AuditFits,
      Completion, Report;
    ghost var before, w := trino.store, trino.issued;
    ghost var reach, sent;
    r, reach, sent := trino.IngestEvents(received);
    if received == [] || AnyBlank(received) {
      t' := t;
    } else {
      WholeIffAcceptable(Items(received, w), trino.cfg);
      AuditFinished(before.tables, received, w);
      ghost var row := if w in trino.store.runs then Some(trino.store.runs[w]) else None;
      t' := RunIsHistory(t, received, sent, row, r.Success?, trino.cfg);
      OneRowAdded(w, before.runs, trino.store.runs);
    }
  }

  lemma OneRowAdded(w: nat, before: map<nat, RunRow>, after: map<nat, RunRow>)
    requires OthersKept(w, before, after) && w !in before
    ensures after == if w in after then before[w := after[w]] else before
  {
    assert forall v :: v in after && v != w ==> v in after - {w} && after[v] == (after - {w})[v];
    assert forall v :: v in before ==> v in before - {w} && before[v] == (before - {w})[v];
  }
}
