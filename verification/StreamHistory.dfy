/** What the worker does, as stretches of the transition system of Streaming. */
module StreamHistory {
  import opened Prelude
  import opened Lake
  import opened Plans
  import opened TrinoRuns
  import opened Streaming

  /** A history that is still being written, and the state it has reached. */
  datatype Trace = Trace(states: seq<State>, steps: seq<Step>, tip: State) {
    ghost predicate Proper(cfg: Config, batchSize: nat, good: set<string>) {
      History(states, steps, cfg, batchSize, good) && tip == states[|steps|]
    }

    ghost predicate Extends(earlier: Trace) {
      earlier.states <= states && earlier.steps <= steps
    }

    ghost function Then(step: Step, cfg: Config, batchSize: nat, good: set<string>): Trace
      requires Enabled(tip, step, batchSize, good)
    {
      var next := Next(tip, step, cfg, batchSize, good);
      Trace(states + [next], steps + [step], next)
    }
  }

  lemma ThenProper(t: Trace, step: Step, cfg: Config, batchSize: nat, good: set<string>)
    requires t.Proper(cfg, batchSize, good) && Enabled(t.tip, step, batchSize, good)
    ensures
      var t' := t.Then(step, cfg, batchSize, good);
      t'.Proper(cfg, batchSize, good) && t'.tip == Next(t.tip, step, cfg, batchSize, good) && t'.Extends(t)
  {
    hide Enabled, Next;
  }

  lemma ExtendsTransitive(a: Trace, b: Trace, c: Trace)
    requires b.Extends(a) && c.Extends(b)
    ensures c.Extends(a)
  {
  }

  lemma {:induction false} Advances(t: Trace, cfg: Config, batchSize: nat, good: set<string>, w: nat, n: nat)
      returns (t': Trace)
    requires t.Proper(cfg, batchSize, good)
    requires
      var lake := t.tip.lake;
      w < |lake.writers| && lake.writers[w].phase == W.Working && lake.writers[w].done == 0
        && n <= |lake.writers[w].plan|
    ensures t'.Proper(cfg, batchSize, good) && t'.Extends(t)
    ensures t'.tip == t.tip.(lake := W.Advanced(t.tip.lake, w, n))
    decreases n
  {
    hide SendAll, W.Next, W.Enabled;
    var s := t.tip;
    if n == 0 {
      t' := t;
      SendNothing(s.lake.tables);
      assert s.lake.writers[w].(done := 0) == s.lake.writers[w];
      assert s.lake.writers[w].plan[..0] == [];
    } else {
      var before := Advances(t, cfg, batchSize, good, w, n - 1);
      W.AdvancedStep(s.lake, w, n - 1, cfg);
      ThenProper(before, LakeStep(W.Advance(w)), cfg, batchSize, good);
      t' := before.Then(LakeStep(W.Advance(w)), cfg, batchSize, good);
    }
  }

  /** The plan of a run that is about to start. */
  function PlanOf(lake: W.State, batch: seq<Event>, cfg: Config): (seq<Statement>, bool) {
    Plan(Items(batch, |lake.writers|), cfg)
  }

  /** The batch is held, and no earlier attempt on it is still under way. */
  ghost predicate Ready(s: State, batch: seq<Event>) {
    && s.stage.Holding? && s.stage.batch == batch
    && (s.stage.run.Some? ==>
          s.stage.run.value < |s.lake.writers| && s.lake.writers[s.stage.run.value].phase == W.Dead)
  }

  lemma RetryIsHistory(t: Trace, cfg: Config, batchSize: nat, good: set<string>, batch: seq<Event>) returns (t': Trace)
    requires t.Proper(cfg, batchSize, good) && Ready(t.tip, batch)
    ensures t'.Proper(cfg, batchSize, good) && t'.Extends(t) && t'.tip == t.tip.(stage := Holding(batch, None))
  {
    t' := t;
    if t.tip.stage.run.Some? {
      ThenProper(t, Retry, cfg, batchSize, good);
      t' := t.Then(Retry, cfg, batchSize, good);
    }
  }

  /** A call of ingest_events has stored the first statements of its plan, and finished or not. */
  ghost predicate Attempted(s: State, s': State, batch: seq<Event>, sent: nat, finished: bool, cfg: Config)
    requires sent <= |PlanOf(s.lake, batch, cfg).0|
  {
    var w := |s.lake.writers|;
    && s' == s.(lake := s'.lake, stage := if finished then Publishing(batch, {}) else Holding(batch, Some(w)))
    && s'.lake.tables == SendAll(s.lake.tables, PlanOf(s.lake, batch, cfg).0[..sent])
    && |s'.lake.writers| == w + 1
    && (!finished ==> s'.lake.writers[w].phase == W.Dead)
  }

  /** Such a call is a stretch of the history: a run starts, its statements land, and it finishes or dies. */
  lemma AttemptIsHistory(t: Trace, cfg: Config, batchSize: nat, good: set<string>, batch: seq<Event>, sent: nat,
                         finished: bool)
      returns (t': Trace)
    requires t.Proper(cfg, batchSize, good) && Ready(t.tip, batch)
    requires batch != [] && !AnyBlank(batch)
    requires sent <= |PlanOf(t.tip.lake, batch, cfg).0|
    requires finished ==> sent == |PlanOf(t.tip.lake, batch, cfg).0| && PlanOf(t.tip.lake, batch, cfg).1
    ensures t'.Proper(cfg, batchSize, good) && t'.Extends(t)
    ensures Attempted(t.tip, t'.tip, batch, sent, finished, cfg)
  {
    hide SendAll, Items, Plan, History, CountForRun;
    var s := t.tip;
    var w := |s.lake.writers|;
    t' := RetryIsHistory(t, cfg, batchSize, good, batch);
    ThenProper(t', Attempt, cfg, batchSize, good);
    t' := t'.Then(Attempt, cfg, batchSize, good);
    t' := Advances(t', cfg, batchSize, good, w, sent);
    var end := LakeStep(if finished then W.Finish(w) else W.Die(w));
    ThenProper(t', end, cfg, batchSize, good);
    t' := t'.Then(end, cfg, batchSize, good);
    if finished {
      ThenProper(t', Accept, cfg, batchSize, good);
      t' := t'.Then(Accept, cfg, batchSize, good);
    }
  }

  // ---------------------------------------------------------------- the worker's view

  /** What the worker and its stores hold, as far as the transition system knows it. */
  datatype World = World(tables: EventTables, issued: nat, log: seq<seq<Event>>, committed: seq<nat>,
                         position: seq<nat>, acked: set<string>)

  /** The history ends in this world, at this stage of the worker. */
  ghost predicate EndsIn(t: Trace, world: World, stage: Stage, cfg: Config, batchSize: nat, good: set<string>) {
    && t.Proper(cfg, batchSize, good)
    && t.tip == State(t.tip.lake, world.log, world.committed, world.position, stage, world.acked)
    && t.tip.lake.tables == world.tables && |t.tip.lake.writers| == world.issued
  }

  lemma TipStage(t: Trace, world: World, stage: Stage, cfg: Config, batchSize: nat, good: set<string>)
    requires EndsIn(t, world, stage, cfg, batchSize, good)
    ensures t.tip.stage == stage && t.Extends(t)
  {
  }

  lemma Begins(world: World, lake: W.State, cfg: Config, batchSize: nat, good: set<string>) returns (t: Trace)
    requires lake.tables == world.tables && |lake.writers| == world.issued
    ensures t == Trace([t.tip], [], State(lake, world.log, world.committed, world.position, Idle, world.acked))
    ensures EndsIn(t, world, Idle, cfg, batchSize, good)
  {
    var s := State(lake, world.log, world.committed, world.position, Idle, world.acked);
    t := Trace([s], [], s);
  }

  lemma Polled(t: Trace, world: World, upTo: seq<nat>, cfg: Config, batchSize: nat, good: set<string>)
      returns (t': Trace)
    requires EndsIn(t, world, Idle, cfg, batchSize, good)
    requires Offsets(world.log, world.position, upTo) && 0 < |Fetched(world.log, world.position, upTo)| <= batchSize
    ensures t'.Extends(t)
    ensures EndsIn(t', world.(position := upTo), Holding(Fetched(world.log, world.position, upTo), None), cfg,
                   batchSize, good)
    ensures t'.tip.stage == Holding(Fetched(world.log, world.position, upTo), None)
    ensures Ready(t'.tip, Fetched(world.log, world.position, upTo))
  {
    hide History, Fetched;
    ThenProper(t, Poll(upTo), cfg, batchSize, good);
    t' := t.Then(Poll(upTo), cfg, batchSize, good);
  }

  lemma Ingested(t: Trace, world: World, batch: seq<Event>, sent: nat, finished: bool, tables: EventTables,
                 cfg: Config, batchSize: nat, good: set<string>) returns (t': Trace)
    requires EndsIn(t, world, t.tip.stage, cfg, batchSize, good) && Ready(t.tip, batch)
    requires batch != [] && !AnyBlank(batch)
    requires
      var plan := Plan(Items(batch, world.issued), cfg);
      && sent <= |plan.0| && tables == SendAll(world.tables, plan.0[..sent])
      && (finished ==> sent == |plan.0| && plan.1)
    ensures t'.Extends(t)
    ensures EndsIn(t', world.(tables := tables, issued := world.issued + 1), t'.tip.stage, cfg, batchSize, good)
    ensures if finished then t'.tip.stage == Publishing(batch, {}) else Ready(t'.tip, batch)
  {
    hide History, Plan, Items, SendAll, AnyBlank;
    t' := AttemptIsHistory(t, cfg, batchSize, good, batch, sent, finished);
  }

  lemma Published(t: Trace, world: World, batch: seq<Event>, letters: set<nat>, i: nat,
                  cfg: Config, batchSize: nat, good: set<string>) returns (t': Trace)
    requires EndsIn(t, world, Publishing(batch, letters), cfg, batchSize, good) && i < |Invalid(batch)|
    ensures t'.Extends(t)
    ensures
      var acked := world.acked + {Invalid(batch)[i].id};
      EndsIn(t', world.(acked := acked), Publishing(batch, letters + {i}), cfg, batchSize, good)
  {
    hide History, Invalid;
    ThenProper(t, Publish(i), cfg, batchSize, good);
    t' := t.Then(Publish(i), cfg, batchSize, good);
  }

  lemma Committed(t: Trace, world: World, stage: Stage, cfg: Config, batchSize: nat, good: set<string>)
      returns (t': Trace)
    requires EndsIn(t, world, stage, cfg, batchSize, good) && AllSent(stage)
    ensures t'.Extends(t)
    ensures EndsIn(t', world.(committed := world.position), Idle, cfg, batchSize, good) && t'.tip.stage == Idle
  {
    hide History, Invalid;
    ThenProper(t, Commit, cfg, batchSize, good);
    t' := t.Then(Commit, cfg, batchSize, good);
  }
}
