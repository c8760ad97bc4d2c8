/** The Kafka worker: poll, ingest with retries, publish dead letters, commit offsets; it may stop anywhere. */
module Streaming {
  import opened Prelude
  import opened Text
  import opened Tables
  import opened Lake
  import opened Plans
  import opened TrinoRuns
  import W = Writers
  import opened Convergence

  datatype Stage =
    | Idle
    | Holding(batch: seq<Event>, run: Option<nat>)   // inside ingest_with_retry, between or during attempts
    | Publishing(batch: seq<Event>, letters: set<nat>)   // which dead letters are acknowledged so far

  /**
   * One partition log per topic partition, holding the event that parse_record makes of each record; the
   * committed offsets, the consumer's position, and the ids of acknowledged dead letters.
   */
  datatype State = State(lake: W.State, log: seq<seq<Event>>, committed: seq<nat>, position: seq<nat>, stage: Stage,
                         acked: set<string>)

  datatype Step =
    | Produce(partition: nat, event: Event)
    | LakeStep(step: W.Step)          // any run, the worker's own or another client's
    | Poll(upTo: seq<nat>)
    | Attempt
    | Retry
    | Accept
    | Publish(letter: nat)            // the broker acknowledges them in any order
    | Commit
    | Restart                         // a crash or a shutdown, at any point, and the next start

  /** The records of all partitions from one set of offsets to another. */
  function Fetched(log: seq<seq<Event>>, from: seq<nat>, upTo: seq<nat>): seq<Event>
    requires |from| == |log| == |upTo| && forall p :: 0 <= p < |log| ==> from[p] <= upTo[p] <= |log[p]|
    decreases |log|
  {
    if log == [] then [] else log[0][from[0]..upTo[0]] + Fetched(log[1..], from[1..], upTo[1..])
  }

  function Invalid(batch: seq<Event>): seq<Event> {
    if batch == [] then []
    else
      var n := |batch| - 1;
      Invalid(batch[..n]) + (if batch[n].parseSuccess then [] else [batch[n]])
  }

  /** Every dead letter of the batch is acknowledged. */
  predicate AllSent(stage: Stage) {
    stage.Publishing? && forall i :: 0 <= i < |Invalid(stage.batch)| ==> i in stage.letters
  }

  ghost predicate Offsets(log: seq<seq<Event>>, from: seq<nat>, upTo: seq<nat>) {
    |from| == |log| == |upTo| && forall p :: 0 <= p < |log| ==> from[p] <= upTo[p] <= |log[p]|
  }

  ghost predicate Enabled(s: State, step: Step, batchSize: nat, good: set<string>) {
    match step
    case Produce(p, e) => p < |s.log| && !Blank(e.id) && ParsesAs([e], good)
    case LakeStep(step) => W.Enabled(s.lake, step) && (step.Start? ==> ParsesAs(step.received, good))
    case Poll(upTo) =>
      s.stage == Idle && Offsets(s.log, s.position, upTo) && 0 < |Fetched(s.log, s.position, upTo)| <= batchSize
    case Attempt => s.stage.Holding? && s.stage.run == None && s.stage.batch != [] && !AnyBlank(s.stage.batch)
    case Retry => s.stage.Holding? && s.stage.run.Some? && s.stage.run.value < |s.lake.writers|
      && s.lake.writers[s.stage.run.value].phase == W.Dead
    case Accept => s.stage.Holding? && s.stage.run.Some? && s.stage.run.value < |s.lake.writers|
      && s.lake.writers[s.stage.run.value].phase.Finished?
    case Publish(i) => s.stage.Publishing? && i < |Invalid(s.stage.batch)|
    case Commit => AllSent(s.stage)
    case Restart => true
  }

  ghost function Next(s: State, step: Step, cfg: Config, batchSize: nat, good: set<string>): State
    requires Enabled(s, step, batchSize, good)
  {
    match step
    case Produce(p, e) => s.(log := s.log[p := s.log[p] + [e]])
    case LakeStep(step) => s.(lake := W.Next(s.lake, step, cfg))
    case Poll(upTo) => s.(position := upTo, stage := Holding(Fetched(s.log, s.position, upTo), None))
    case Attempt =>
      s.(lake := W.Next(s.lake, W.Start(s.stage.batch), cfg), stage := Holding(s.stage.batch, Some(|s.lake.writers|)))
    case Retry => s.(stage := Holding(s.stage.batch, None))
    case Accept => s.(stage := Publishing(s.stage.batch, {}))
    case Publish(i) =>
      s.(acked := s.acked + {Invalid(s.stage.batch)[i].id}, stage := Publishing(s.stage.batch, s.stage.letters + {i}))
    case Commit => s.(committed := s.position, stage := Idle)
    case Restart => s.(position := s.committed, stage := Idle)
  }

  // ---------------------------------------------------------------- the invariant

  /** The event is in the raw table and in the one table its parse result selects. */
  ghost predicate Stored(t: EventTables, e: Event) {
    && e.id in Keys(t.raw)
    && (e.parseSuccess ==> e.id in Keys(t.normalized))
    && (!e.parseSuccess ==> e.id in Keys(t.quarantine))
  }

  ghost predicate LogSound(log: seq<seq<Event>>, good: set<string>) {
    forall p, o :: 0 <= p < |log| && 0 <= o < |log[p]| ==>
        !Blank(log[p][o].id) && (log[p][o].parseSuccess <==> log[p][o].id in good)
  }

  /** Every record below the committed offset is stored and, if invalid, has an acknowledged dead letter. */
  ghost predicate Secured(t: EventTables, log: seq<seq<Event>>, committed: seq<nat>, acked: set<string>)
    requires |committed| == |log| && forall p :: 0 <= p < |log| ==> committed[p] <= |log[p]|
  {
    forall p, o :: 0 <= p < |log| && 0 <= o < committed[p] ==>
      Stored(t, log[p][o]) && (!log[p][o].parseSuccess ==> log[p][o].id in acked)
  }

  ghost predicate CommittedSecured(s: State)
    requires Offsets(s.log, s.committed, s.position)
  {
    Secured(s.lake.tables, s.log, s.committed, s.acked)
  }

  ghost predicate StageSound(s: State)
    requires Offsets(s.log, s.committed, s.position)
  {
    match s.stage
    case Idle => s.position == s.committed
    case Holding(batch, run) =>
      && batch == Fetched(s.log, s.committed, s.position) && batch != []
      && (run.Some? ==> run.value < |s.lake.writers| && s.lake.writers[run.value].received == batch)
    case Publishing(batch, letters) =>
      && batch == Fetched(s.log, s.committed, s.position)
      && (forall e :: e in batch ==> Stored(s.lake.tables, e))
      && forall i :: i in letters ==> i < |Invalid(batch)| && Invalid(batch)[i].id in s.acked
  }

  ghost predicate Inv(s: State, good: set<string>) {
    && W.Inv(s.lake) && AllParseAs(s.lake, good) && LogSound(s.log, good)
    && Offsets(s.log, s.committed, s.position) && CommittedSecured(s) && StageSound(s)
  }

  lemma {:induction false} FetchedMember(log: seq<seq<Event>>, from: seq<nat>, upTo: seq<nat>, e: Event)
    requires Offsets(log, from, upTo)
    ensures e in Fetched(log, from, upTo) <==> exists p, o :: 0 <= p < |log| && from[p] <= o < upTo[p] && log[p][o] == e
    decreases |log|
  {
    if log != [] {
      FetchedMember(log[1..], from[1..], upTo[1..], e);
      if e in log[0][from[0]..upTo[0]] {
        var i :| 0 <= i < upTo[0] - from[0] && log[0][from[0]..upTo[0]][i] == e;
        assert log[0][from[0] + i] == e;
      }
      if p, o :| 0 <= p < |log| && from[p] <= o < upTo[p] && log[p][o] == e {
        if p == 0 {
          assert log[0][from[0]..upTo[0]][o - from[0]] == e;
        } else {
          assert log[1..][p - 1][o] == e;
        }
      }
    }
  }

  lemma BatchOfLog(log: seq<seq<Event>>, from: seq<nat>, upTo: seq<nat>, good: set<string>)
    requires Offsets(log, from, upTo) && LogSound(log, good)
    ensures ParsesAs(Fetched(log, from, upTo), good) && !AnyBlank(Fetched(log, from, upTo))
  {
    hide Fetched;
    var batch := Fetched(log, from, upTo);
    forall e | e in batch ensures !Blank(e.id) && (e.parseSuccess <==> e.id in good) {
      FetchedMember(log, from, upTo, e);
    }
    assert forall i :: 0 <= i < |batch| ==> batch[i] in batch;
  }

  /** A held batch can always be attempted (again). */
  lemma HeldBatch(s: State, good: set<string>)
    requires Inv(s, good) && s.stage.Holding?
    ensures s.stage.batch != [] && !AnyBlank(s.stage.batch) && ParsesAs(s.stage.batch, good)
  {
    hide Fetched, CommittedSecured, LogSound;
    BatchOfLog(s.log, s.committed, s.position, good);
  }

  lemma {:induction false} InvalidMember(batch: seq<Event>)
    ensures forall e :: e in Invalid(batch) <==> e in batch && !e.parseSuccess
  {
    if batch != [] {
      var n := |batch| - 1;
      InvalidMember(batch[..n]);
      assert batch == batch[..n] + [batch[n]];
    }
  }

  /** When tables and acknowledgements only grow, what was secured stays secured. */
  lemma StoredGrows(t: EventTables, t': EventTables)
    requires Grows(t, t')
    ensures forall e :: Stored(t, e) ==> Stored(t', e)
  {
    assert t.raw == t.Of(Raw) && t.normalized == t.Of(Normalized) && t.quarantine == t.Of(Quarantine);
    assert t'.raw == t'.Of(Raw) && t'.normalized == t'.Of(Normalized) && t'.quarantine == t'.Of(Quarantine);
    KeysGrow(t.raw, t'.raw);
    KeysGrow(t.normalized, t'.normalized);
    KeysGrow(t.quarantine, t'.quarantine);
  }

  /** A batch parses as `good`: every event's id is wanted where the event belongs. */
  lemma EventWanted(batch: seq<Event>, e: Event, good: set<string>)
    requires ParsesAs(batch, good) && e in batch
    ensures e.id in Wanted(Raw, batch)
    ensures if e.parseSuccess then e.id in Wanted(Normalized, batch) else e.id in Wanted(Quarantine, batch)
  {
    var i :| 0 <= i < |batch| && batch[i] == e;
    var j := LastOccurrence(batch, i);
    assert batch[j] in batch;
  }

  lemma LastOccurrence(batch: seq<Event>, i: nat) returns (j: nat)
    requires i < |batch|
    ensures i <= j < |batch| && batch[j].id == batch[i].id && LastWithId(batch, j)
    decreases |batch| - i
  {
    if k :| i < k < |batch| && batch[k].id == batch[i].id {
      j := LastOccurrence(batch, k);
    } else {
      j := i;
    }
  }

  lemma LakeGrows(s: State, lake': W.State, stage': Stage, good: set<string>)
    requires Inv(s, good) && W.Inv(lake') && Grows(s.lake.tables, lake'.tables) && AllParseAs(lake', good)
    requires StageSound(s.(lake := lake', stage := stage'))
    ensures Inv(s.(lake := lake', stage := stage'), good)
  {
    hide Fetched, LogSound, W.Inv, AllParseAs, Grows, Stored, StageSound;
    StoredGrows(s.lake.tables, lake'.tables);
  }

  lemma StartedRuns(lake: W.State, step: W.Step, cfg: Config, good: set<string>)
    requires AllParseAs(lake, good) && W.Enabled(lake, step) && (step.Start? ==> ParsesAs(step.received, good))
    ensures var lake' := W.Next(lake, step, cfg);
            && AllParseAs(lake', good) && |lake.writers| <= |lake'.writers|
            && (forall i :: 0 <= i < |lake.writers| ==> lake'.writers[i].received == lake.writers[i].received)
            && (step.Start? ==>
                  |lake'.writers| == |lake.writers| + 1 && lake'.writers[|lake.writers|].received == step.received)
  {
    hide Merge, Items, Plan, ParsesAs, CountForRun;
  }

  lemma LakeStepKeeps(s: State, step: W.Step, cfg: Config, good: set<string>)
    requires Inv(s, good) && cfg.Valid() && W.Enabled(s.lake, step) && (step.Start? ==> ParsesAs(step.received, good))
    ensures Inv(s.(lake := W.Next(s.lake, step, cfg)), good)
    ensures Grows(s.lake.tables, W.Next(s.lake, step, cfg).tables)
  {
    hide Fetched, LogSound, W.Inv, AllParseAs, Grows, CommittedSecured, W.Next, Stored;
    W.StepKeeps(s.lake, step, cfg);
    StartedRuns(s.lake, step, cfg, good);
    StoredGrows(s.lake.tables, W.Next(s.lake, step, cfg).tables);
    LakeGrows(s, W.Next(s.lake, step, cfg), s.stage, good);
  }

  lemma AttemptKeeps(s: State, cfg: Config, good: set<string>)
    requires Inv(s, good) && cfg.Valid() && s.stage.Holding? && s.stage.batch != [] && !AnyBlank(s.stage.batch)
    ensures var lake' := W.Next(s.lake, W.Start(s.stage.batch), cfg);
            Inv(s.(lake := lake', stage := Holding(s.stage.batch, Some(|s.lake.writers|))), good)
              && Grows(s.lake.tables, lake'.tables)
  {
    hide Fetched, LogSound, W.Inv, AllParseAs, Grows, CommittedSecured, W.Next, Stored;
    var start := W.Start(s.stage.batch);
    HeldBatch(s, good);
    W.StepKeeps(s.lake, start, cfg);
    StartedRuns(s.lake, start, cfg, good);
    LakeGrows(s, W.Next(s.lake, start, cfg), Holding(s.stage.batch, Some(|s.lake.writers|)), good);
  }

  lemma AcceptKeeps(s: State, good: set<string>)
    requires Inv(s, good) && s.stage.Holding? && s.stage.run.Some?
    requires s.lake.writers[s.stage.run.value].phase.Finished?
    ensures Inv(s.(stage := Publishing(s.stage.batch, {})), good)
  {
    hide Fetched, LogSound, W.Inv, AllParseAs, Wanted, Invalid;
    var batch, w := s.stage.batch, s.stage.run.value;
    HeldBatch(s, good);
    FinishedStored(s.lake, w, Raw);
    FinishedStored(s.lake, w, Normalized);
    FinishedStored(s.lake, w, Quarantine);
    forall e | e in batch ensures Stored(s.lake.tables, e) {
      EventWanted(batch, e, good);
    }
  }

  /** Once a polled batch is stored and its invalid events have dead letters, its offsets may be committed. */
  lemma BatchSecured(t: EventTables, log: seq<seq<Event>>, committed: seq<nat>, position: seq<nat>, acked: set<string>)
    requires Offsets(log, committed, position) && Secured(t, log, committed, acked)
    requires forall e :: e in Fetched(log, committed, position) ==> Stored(t, e) && (!e.parseSuccess ==> e.id in acked)
    ensures Secured(t, log, position, acked)
  {
    hide Fetched, Stored;
    forall p, o | 0 <= p < |log| && 0 <= o < position[p]
      ensures Stored(t, log[p][o]) && (!log[p][o].parseSuccess ==> log[p][o].id in acked)
    {
      if o >= committed[p] { FetchedMember(log, committed, position, log[p][o]); }
    }
  }

  lemma CommitKeeps(s: State, good: set<string>)
    requires Inv(s, good) && AllSent(s.stage)
    ensures Inv(s.(committed := s.position, stage := Idle), good)
  {
    hide Fetched, LogSound, W.Inv, AllParseAs, Stored, Invalid, Secured;
    var letters := Invalid(s.stage.batch);
    InvalidMember(s.stage.batch);
    forall e | e in s.stage.batch && !e.parseSuccess ensures e.id in s.acked {
      var i :| 0 <= i < |letters| && letters[i] == e;
      assert i in s.stage.letters;
    }
    BatchSecured(s.lake.tables, s.log, s.committed, s.position, s.acked);
  }

  lemma {:induction false} FetchedIgnoresTail(log: seq<seq<Event>>, log': seq<seq<Event>>, from: seq<nat>,
                                              upTo: seq<nat>)
    requires Offsets(log, from, upTo) && |log'| == |log| && forall p :: 0 <= p < |log| ==> log[p] <= log'[p]
    ensures Offsets(log', from, upTo) && Fetched(log', from, upTo) == Fetched(log, from, upTo)
    decreases |log|
  {
    if log != [] {
      assert log'[0][from[0]..upTo[0]] == log[0][from[0]..upTo[0]];
      FetchedIgnoresTail(log[1..], log'[1..], from[1..], upTo[1..]);
    }
  }

  lemma ProduceKeeps(s: State, p: nat, e: Event, good: set<string>)
    requires Inv(s, good) && p < |s.log| && !Blank(e.id) && ParsesAs([e], good)
    ensures Inv(s.(log := s.log[p := s.log[p] + [e]]), good)
  {
    hide Fetched, W.Inv, AllParseAs, Stored, Invalid, Blank;
    var log' := s.log[p := s.log[p] + [e]];
    assert e in [e];
    assert forall q :: 0 <= q < |s.log| ==> s.log[q] <= log'[q];
    FetchedIgnoresTail(s.log, log', s.committed, s.position);
    assert forall q, o :: 0 <= q < |s.log| && 0 <= o < |s.log[q]| ==> log'[q][o] == s.log[q][o];
    assert log'[p][|s.log[p]|] == e;
  }

  lemma PublishKeeps(s: State, i: nat, good: set<string>)
    requires Inv(s, good) && s.stage.Publishing? && i < |Invalid(s.stage.batch)|
    ensures
      var batch := s.stage.batch;
      Inv(s.(acked := s.acked + {Invalid(batch)[i].id}, stage := Publishing(batch, s.stage.letters + {i})), good)
  {
    hide Fetched, W.Inv, AllParseAs, Stored, Invalid, LogSound;
  }

  lemma PositionKeeps(s: State, position': seq<nat>, stage': Stage, good: set<string>)
    requires Inv(s, good) && Offsets(s.log, s.committed, position')
             && StageSound(s.(position := position', stage := stage'))
    ensures Inv(s.(position := position', stage := stage'), good)
  {
    hide Fetched, W.Inv, AllParseAs, Stored, LogSound, StageSound;
  }

  ghost predicate NeverBack(s: State, s': State) {
    && Grows(s.lake.tables, s'.lake.tables) && s.acked <= s'.acked
    && |s.committed| == |s'.committed| && forall p :: 0 <= p < |s.committed| ==> s.committed[p] <= s'.committed[p]
  }

  /** Every step, a crash at any point included, keeps the invariant; nothing secured is ever taken back. */
  lemma StepKeeps(s: State, step: Step, cfg: Config, batchSize: nat, good: set<string>)
    requires Inv(s, good) && cfg.Valid() && Enabled(s, step, batchSize, good)
    ensures Inv(Next(s, step, cfg, batchSize, good), good) && NeverBack(s, Next(s, step, cfg, batchSize, good))
  {
    hide W.Inv, AllParseAs, LogSound, Fetched, CommittedSecured, Stored, Invalid, Grows, W.Next;
    GrowsReflexive(s.lake.tables);
    match step
    case Produce(p, e) => ProduceKeeps(s, p, e, good);
    case LakeStep(step) => LakeStepKeeps(s, step, cfg, good);
    case Poll(upTo) => PositionKeeps(s, upTo, Holding(Fetched(s.log, s.position, upTo), None), good);
    case Attempt => AttemptKeeps(s, cfg, good);
    case Retry => PositionKeeps(s, s.position, Holding(s.stage.batch, None), good);
    case Accept => AcceptKeeps(s, good);
    case Publish(i) => PublishKeeps(s, i, good);
    case Commit => CommitKeeps(s, good);
    case Restart => PositionKeeps(s, s.committed, Idle, good);
  }

  // ---------------------------------------------------------------- whole runs

  /** A history of the worker, the lake and the topic. */
  ghost predicate History(states: seq<State>, steps: seq<Step>, cfg: Config, batchSize: nat, good: set<string>) {
    && |states| == |steps| + 1
    && forall i :: 0 <= i < |steps| ==>
         && Enabled(states[i], steps[i], batchSize, good)
         && states[i + 1] == Next(states[i], steps[i], cfg, batchSize, good)
  }

  lemma {:induction false} HistoryKeeps(states: seq<State>, steps: seq<Step>, cfg: Config, batchSize: nat,
                                        good: set<string>, n: nat)
    requires History(states, steps, cfg, batchSize, good) && cfg.Valid() && Inv(states[0], good) && n < |states|
    ensures Inv(states[n], good)
  {
    hide Inv, Next, Enabled;
    if n > 0 {
      HistoryKeeps(states, steps, cfg, batchSize, good, n - 1);
      StepKeeps(states[n - 1], steps[n - 1], cfg, batchSize, good);
    }
  }

  /**
   * In every reachable state every record below the committed offset has a raw row, a row in exactly one of the
   * normalized and quarantine tables, and, if it is invalid, an acknowledged dead letter.
   */
  lemma CommittedRecordsAreSafe(states: seq<State>, steps: seq<Step>, cfg: Config, batchSize: nat, good: set<string>,
                                n: nat, p: nat, o: nat)
    requires History(states, steps, cfg, batchSize, good) && cfg.Valid() && Inv(states[0], good) && n < |states|
    requires |states[n].committed| == |states[n].log| && p < |states[n].log|
             && o < states[n].committed[p] <= |states[n].log[p]|
    ensures var s, e := states[n], states[n].log[p][o];
            && e.id in Keys(s.lake.tables.raw)
            && (e.id in Keys(s.lake.tables.normalized) <==> e.parseSuccess)
            && (e.id in Keys(s.lake.tables.quarantine) <==> !e.parseSuccess)
            && (!e.parseSuccess ==> e.id in s.acked)
  {
    hide History, W.Inv, AllParseAs, StageSound;
    HistoryKeeps(states, steps, cfg, batchSize, good, n);
    PartitionHolds(states[n].lake, good);
  }

  /** A fresh deployment. */
  lemma FreshIsSound(partitions: nat, good: set<string>)
    ensures var zero := seq(partitions, _ => 0);
            Inv(State(W.INITIAL, seq(partitions, _ => []), zero, zero, Idle, {}), good)
  {
    W.InitialSound();
  }
}
