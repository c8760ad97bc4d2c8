/**
 * The Kafka worker's own loops: poll, ingest with retries, publish dead letters, commit. How statements, polls
 * and deliveries go, and when the stop signal arrives, is left to scripts; the records are those of the log.
 */
module StreamWorker {
  import opened Prelude
  import opened Tables
  import opened Lake
  import opened Plans
  import opened Preflight
  import opened TrinoRuns
  import opened Convergence
  import opened Streaming
  import opened StreamHistory

  datatype Exit = Stopped | Crashed

  // ---------------------------------------------------------------- what an ingestion does to the guarantees

  lemma SeparatedReached(before: EventTables, after: EventTables, received: seq<Event>, run: nat, reach: Reach,
                         good: set<string>)
    requires Separated(before, good) && ParsesAs(received, good)
    requires Reached(before, after, Items(received, run), reach)
    ensures Separated(after, good)
  {
    hide Merge, Parsed, Items;
    var items := Items(received, run);
    var valid, invalid := Parsed(items, true), Parsed(items, false);
    MergeKeys(before.normalized, valid[..reach.normalized]);
    MergeKeys(before.quarantine, invalid[..reach.quarantine]);
    WantedKeys(Normalized, received, run);
    WantedKeys(Quarantine, received, run);
    WantedParse(Normalized, received, good);
    WantedParse(Quarantine, received, good);
    KeysWithin(valid[..reach.normalized], valid);
    KeysWithin(invalid[..reach.quarantine], invalid);
  }

  lemma CompletedStored(before: EventTables, received: seq<Event>, run: nat, good: set<string>)
    requires ParsesAs(received, good)
    ensures forall e :: e in received ==> Stored(Completion(before, Items(received, run)), e)
  {
    hide Items, Completion, Wanted, ParsesAs;
    var items := Items(received, run);
    var after := Completion(before, items);
    forall e | e in received ensures Stored(after, e) {
      EventWanted(received, e, good);
      forall k: Kind ensures Wanted(k, received) <= Keys(after.Of(k)) {
        WantedKeys(k, received, run);
        CompletionKeys(before, items, k);
      }
      assert after.raw == after.Of(Raw) && after.normalized == after.Of(Normalized)
             && after.quarantine == after.Of(Quarantine);
    }
  }

  lemma SecuredGrows(t: EventTables, t': EventTables, log: seq<seq<Event>>, committed: seq<nat>, acked: set<string>,
                     acked': set<string>)
    requires |committed| == |log| && (forall p :: 0 <= p < |log| ==> committed[p] <= |log[p]|)
    requires Secured(t, log, committed, acked) && Grows(t, t') && acked <= acked'
    ensures Secured(t', log, committed, acked')
  {
    hide Stored, Grows;
    StoredGrows(t, t');
  }

  // ---------------------------------------------------------------- the undisturbed worker

  /** Every row that the event can lead to passes the size checks. */
  ghost predicate Storable(e: Event, cfg: Config) {
    forall k: Kind :: BelongsTo(k, e) ==>
      PassesCheck(cfg.Spec(k), ValuesFor(k, e), cfg.maxBytes)
        && !RaisesInMerge(cfg.Spec(k), ValuesFor(k, e), cfg.maxBytes)
  }

  ghost predicate AllStorable(events: seq<Event>, cfg: Config) {
    forall e :: e in events ==> Storable(e, cfg)
  }

  /** Every record of the log is storable. */
  ghost predicate LogStorable(log: seq<seq<Event>>, cfg: Config) {
    forall p, o :: 0 <= p < |log| && 0 <= o < |log[p]| ==> Storable(log[p][o], cfg)
  }

  lemma StorableAccepted(received: seq<Event>, run: nat, cfg: Config)
    requires AllStorable(received, cfg)
    ensures Acceptable(Items(received, run), cfg)
  {
    hide Items, PassesCheck, RaisesInMerge, Parsed;
    var items := Items(received, run);
    ItemsOwned(received, run);
    ParsedRows(items, true);
    ParsedRows(items, false);
    assert forall e :: e in received ==> BelongsTo(Raw, e);
    assert forall e :: e in received && e.parseSuccess ==> BelongsTo(Normalized, e);
    assert forall e :: e in received && !e.parseSuccess ==> BelongsTo(Quarantine, e);
  }

  /** The offsets that a poll may end at. */
  predicate Reachable(log: seq<seq<Event>>, from: seq<nat>, upTo: seq<nat>, batchSize: nat) {
    && |from| == |log| == |upTo| && (forall p :: 0 <= p < |log| ==> from[p] <= upTo[p] <= |log[p]|)
    && 0 < |Fetched(log, from, upTo)| <= batchSize
  }

  /** Where the offsets stand when the stop flag is found set after `patience` looks at it and nothing fails. */
  function Consumed(log: seq<seq<Event>>, from: seq<nat>, polls: seq<seq<nat>>, batchSize: nat, patience: nat): seq<nat>
    decreases patience
  {
    if patience == 0 || polls == [] then from
    else if !Reachable(log, from, polls[0], batchSize) then Consumed(log, from, polls[1..], batchSize, patience - 1)
    else if patience == 1 then from
    else Consumed(log, polls[0], polls[1..], batchSize, patience - 2)
  }

  /** The offset after the last record of every partition. */
  function Ends(log: seq<seq<Event>>): (ends: seq<nat>)
    ensures |ends| == |log| && forall p :: 0 <= p < |log| ==> ends[p] == |log[p]|
  {
    seq(|log|, p requires 0 <= p < |log| => |log[p]|)
  }

  /** As long as records are left, every poll brings some of them, at most a batch. */
  ghost predicate Eager(log: seq<seq<Event>>, from: seq<nat>, polls: seq<seq<nat>>, batchSize: nat)
    decreases |polls|
  {
    polls == [] || from == Ends(log)
    || (Offsets(log, from, polls[0]) && 0 < |Fetched(log, from, polls[0])| <= batchSize
        && Eager(log, polls[0], polls[1..], batchSize))
  }

  lemma {:induction false} FetchedLength(log: seq<seq<Event>>, a: seq<nat>, b: seq<nat>, c: seq<nat>)
    requires Offsets(log, a, b) && Offsets(log, b, c)
    ensures Offsets(log, a, c)
    ensures |Fetched(log, a, c)| == |Fetched(log, a, b)| + |Fetched(log, b, c)|
    ensures Fetched(log, a, b) == [] ==> a == b
  {
    if log != [] { FetchedLength(log[1..], a[1..], b[1..], c[1..]); }
  }

  lemma EndIsReached(log: seq<seq<Event>>, upTo: seq<nat>, batchSize: nat)
    ensures !Reachable(log, Ends(log), upTo, batchSize)
  {
    NothingFetched(log, Ends(log));
    assert |upTo| == |log| && (forall p :: 0 <= p < |log| ==> Ends(log)[p] <= upTo[p] <= |log[p]|) ==>
             upTo == Ends(log);
  }

  lemma {:induction false} NothingLeft(log: seq<seq<Event>>, polls: seq<seq<nat>>, batchSize: nat, patience: nat)
    ensures Consumed(log, Ends(log), polls, batchSize, patience) == Ends(log)
    decreases patience
  {
    if patience > 0 && polls != [] {
      EndIsReached(log, polls[0], batchSize);
      NothingLeft(log, polls[1..], batchSize, patience - 1);
    }
  }

  /** Given time for every poll and a poll for every record, an undisturbed worker consumes the whole log. */
  lemma {:induction false} AllConsumed(log: seq<seq<Event>>, from: seq<nat>, polls: seq<seq<nat>>, batchSize: nat,
                                       patience: nat)
    requires Offsets(log, from, from) && Eager(log, from, polls, batchSize)
    requires |Fetched(log, from, Ends(log))| <= |polls| && 2 * |polls| <= patience
    ensures Consumed(log, from, polls, batchSize, patience) == Ends(log)
    decreases |polls|
  {
    hide Fetched, Reachable;
    FetchedLength(log, from, Ends(log), Ends(log));
    if from == Ends(log) {
      NothingLeft(log, polls, batchSize, patience);
    } else {
      ReachableExact(log, from, polls[0], batchSize);
      FetchedLength(log, from, polls[0], Ends(log));
      AllConsumed(log, polls[0], polls[1..], batchSize, patience - 2);
    }
  }

  /** A poll brings records, at most a batch of them, that follow the position. */
  lemma ReachableExact(log: seq<seq<Event>>, from: seq<nat>, upTo: seq<nat>, batchSize: nat)
    ensures Reachable(log, from, upTo, batchSize) <==>
              Offsets(log, from, upTo) && 0 < |Fetched(log, from, upTo)| <= batchSize
  {
    hide Fetched;
  }

  class Worker {
    const trino: Trino
    const batchSize: nat
    const log: seq<seq<Event>>      // per partition, what parse_record makes of every record it will ever hold
    var committed: seq<nat>
    var position: seq<nat>
    var acked: set<string>          // event ids of acknowledged dead letters
    var polls: seq<seq<nat>>        // where the next polls end; beyond it they bring nothing
    var deliveries: seq<Outcome>    // how the next sends and commits go; beyond it they succeed
    var patience: nat               // how often the stop flag is still found unset
    ghost var trace: Trace          // the steps taken so far

    /** No statement, send or commit is going to fail, and every record can be stored. */
    ghost predicate Undisturbed()
      reads this`deliveries, trino
    {
      trino.script == [] && deliveries == [] && LogStorable(log, trino.cfg)
    }

    ghost predicate Valid(good: set<string>)
      reads this`committed, this`position, this`acked, trino
    {
      && trino.Valid() && LogSound(log, good) && Offsets(log, committed, position)
      && Secured(trino.store.tables, log, committed, acked) && Separated(trino.store.tables, good)
    }

    /** What happened so far is a history of the transition system that ends in the present state. */
    ghost predicate Traced(good: set<string>, stage: Stage)
      reads this`trace, this`committed, this`position, this`acked, trino
    {
      EndsIn(trace, Present(), stage, trino.cfg, batchSize, good)
    }

    ghost function Present(): World
      reads this`committed, this`position, this`acked, trino
    {
      World(trino.store.tables, trino.issued, log, committed, position, acked)
    }

    /** A worker starts from what the group last committed, whatever an earlier one left in the tables. */
    constructor (trino: Trino, batchSize: nat, log: seq<seq<Event>>, committed: seq<nat>, acked: set<string>,
                 polls: seq<seq<nat>>, deliveries: seq<Outcome>, patience: nat, ghost lake: W.State,
                 ghost good: set<string>)
      requires trino.Valid() && LogSound(log, good) && Offsets(log, committed, committed)
      requires Secured(trino.store.tables, log, committed, acked) && Separated(trino.store.tables, good)
      requires lake.tables == trino.store.tables && |lake.writers| == trino.issued
      ensures Valid(good) && this.trino == trino && this.log == log && this.committed == committed
      ensures this.position == committed && this.acked == acked
      ensures Traced(good, Idle) && trace.steps == [] && trace.tip.lake == lake
    {
      this.trino, this.batchSize, this.log := trino, batchSize, log;
      this.committed, this.position, this.acked := committed, committed, acked;
      this.polls, this.deliveries, this.patience := polls, deliveries, patience;
      ghost var world := World(trino.store.tables, trino.issued, log, committed, committed, acked);
      ghost var start := Begins(world, lake, trino.cfg, batchSize, good);
      this.trace := start;
    }

    lemma StartsInRange(good: set<string>)
      requires Valid(good) && position == committed
      ensures Offsets(log, committed, committed)
    {
    }

    /** stopped.is_set() and stopped.wait(delay) */
    method IsStopped() returns (stopped: bool)
      modifies this`patience
      ensures stopped <==> old(patience) == 0
      ensures patience == if stopped then 0 else old(patience) - 1
    {
      stopped := patience == 0;
      if !stopped { patience := patience - 1; }
    }

    /** One call of ingest_events on a polled batch. */
    method Ingest(events: seq<Event>, ghost good: set<string>) returns (attempt: Result<IngestionResult, IngestError>)
      requires Valid(good) && events != [] && !AnyBlank(events) && ParsesAs(events, good)
      requires Traced(good, trace.tip.stage) && Ready(trace.tip, events)
      modifies this`trace, trino
      ensures Valid(good) && Grows(old(trino.store.tables), trino.store.tables)
      ensures trace.Extends(old(trace)) && Traced(good, trace.tip.stage)
      ensures if attempt.Success? then trace.tip.stage == Publishing(events, {}) else Ready(trace.tip, events)
      ensures trino.issued == old(trino.issued) + 1
      ensures attempt.Success? ==>
                && (forall e :: e in events ==> Stored(trino.store.tables, e))
                && attempt.value.status in {Completed, CompletedWithQuarantine} && attempt.value.received == |events|
      ensures old(trino.script) == [] && AllStorable(events, trino.cfg) ==> trino.script == [] && attempt.Success?
    {
      hide LogSound, Stored, Grows, Secured, Sound, Reached, Completion, Items, ParsesAs, AuditFits, Separated,
        AllStorable, Acceptable, Plan, SendAll, Report, Parsed, EndsIn, Ready;
      ghost var before, run, world := trino.store.tables, trino.issued, Present();
      ghost var reach, sent;
      if AllStorable(events, trino.cfg) { StorableAccepted(events, run, trino.cfg); }
      attempt, reach, sent := trino.IngestEvents(events);
      SeparatedReached(before, trino.store.tables, events, run, reach, good);
      SecuredGrows(before, trino.store.tables, log, committed, acked, acked);
      WholeIffAcceptable(Items(events, run), trino.cfg);
      trace := Ingested(trace, world, events, sent, attempt.Success?, trino.store.tables, trino.cfg, batchSize, good);
      if attempt.Success? {
        CompletedStored(before, events, run, good);
        AuditFinished(before, events, run);
      }
    }

    /** ingest_with_retry: the same batch again until it is stored or the worker is told to stop. */
    method IngestWithRetry(events: seq<Event>, ghost good: set<string>) returns (result: Option<IngestionResult>)
      requires Valid(good) && events != [] && !AnyBlank(events) && ParsesAs(events, good)
      requires Traced(good, trace.tip.stage) && Ready(trace.tip, events)
      modifies this`patience, this`trace, trino
      ensures Valid(good) && Grows(old(trino.store.tables), trino.store.tables)
      ensures trace.Extends(old(trace)) && Traced(good, trace.tip.stage)
      ensures result.Some? ==>
                && trace.tip.stage == Publishing(events, {})
                && (forall e :: e in events ==> Stored(trino.store.tables, e))
                && result.value.status in {Completed, CompletedWithQuarantine} && result.value.received == |events|
      ensures patience <= old(patience) && (result.None? ==> patience == 0)
      ensures
        var attempts := trino.issued - old(trino.issued);
        if result.Some? then attempts >= 1 && old(patience) == patience + 2 * attempts - 1
        else attempts >= 0 && old(patience) in {2 * attempts - 1, 2 * attempts}
      ensures old(trino.script) == [] && AllStorable(events, trino.cfg) ==>
                trino.script == [] && (result.Some? <==> old(patience) > 0)
                  && (result.Some? ==> patience == old(patience) - 1)
    {
      hide Stored, Grows, ParsesAs, AllStorable, EndsIn, Ready, Valid;
      GrowsReflexive(trino.store.tables);
      ExtendsTransitive(trace, trace, trace);
      var stop := IsStopped();
      while !stop
        invariant Valid(good) && Grows(old(trino.store.tables), trino.store.tables)
        invariant Traced(good, trace.tip.stage) && Ready(trace.tip, events) && trace.Extends(old(trace))
        invariant patience <= old(patience) && (stop ==> patience == 0) && trino.issued >= old(trino.issued)
        invariant old(patience) == patience + 2 * (trino.issued - old(trino.issued)) + if stop then 0 else 1
        invariant old(trino.script) == [] && AllStorable(events, trino.cfg) ==>
          trino.script == [] && if stop then old(patience) == 0 else patience == old(patience) - 1
        decreases patience, !stop
      {
        ghost var before, earlier := trino.store.tables, trace;
        var attempt := Ingest(events, good);
        W.GrowsTransitive(old(trino.store.tables), before, trino.store.tables);
        ExtendsTransitive(old(trace), earlier, trace);
        if attempt.Success? { return Some(attempt.value); }
        stop := IsStopped();
        if stop { return None; }
        stop := IsStopped();
      }
      return None;
    }

    method Deliver() returns (outcome: Outcome)
      modifies this`deliveries
      ensures old(deliveries) == [] ==> outcome == Done && deliveries == []
      ensures old(deliveries) != [] ==> outcome == old(deliveries)[0] && deliveries == old(deliveries)[1..]
    {
      outcome := Done;
      if deliveries != [] {
        outcome := deliveries[0];
        deliveries := deliveries[1..];
      }
    }

    /** producer.send for one invalid event, and what becomes of the letter. */
    method SendLetter(events: seq<Event>, ghost letters: set<nat>, i: nat, ghost good: set<string>)
        returns (outcome: Outcome, ghost letters': set<nat>)
      requires Valid(good) && Traced(good, Publishing(events, letters)) && i < |Invalid(events)|
      modifies this`acked, this`deliveries, this`trace
      ensures Valid(good) && trace.Extends(old(trace))
      ensures Traced(good, Publishing(events, letters')) && trace.tip.stage == Publishing(events, letters')
      ensures letters' == if Applied(outcome) then letters + {i} else letters
      ensures acked == if Applied(outcome) then old(acked) + {Invalid(events)[i].id} else old(acked)
      ensures old(deliveries) == [] ==> outcome == Done && deliveries == []
    {
      hide EndsIn, Invalid, LogSound, Secured, Sound, Separated, Grows, Stored, Trace.Extends;
      GrowsReflexive(trino.store.tables);
      TipStage(trace, Present(), Publishing(events, letters), trino.cfg, batchSize, good);
      outcome := Deliver();
      letters' := letters;
      if Applied(outcome) {
        var id := Invalid(events)[i].id;
        SecuredGrows(trino.store.tables, trino.store.tables, log, committed, acked, acked + {id});
        trace := Published(trace, Present(), events, letters, i, trino.cfg, batchSize, good);
        acked, letters' := acked + {id}, letters + {i};
        TipStage(trace, Present(), Publishing(events, letters'), trino.cfg, batchSize, good);
      }
    }

    /**
     * publish_dead_letters: every invalid event's letter is sent before the first acknowledgement is awaited, so a
     * later letter may be acknowledged though an earlier one fails. A send that raises at once is a broken outcome.
     */
    method PublishDeadLetters(events: seq<Event>, ghost good: set<string>) returns (ok: bool)
      requires Valid(good) && Traced(good, trace.tip.stage) && trace.tip.stage == Publishing(events, {})
      modifies this`acked, this`deliveries, this`trace
      ensures Valid(good)
      ensures trace.Extends(old(trace)) && Traced(good, trace.tip.stage)
      ensures ok ==> AllSent(trace.tip.stage) && trace.tip.stage.batch == events
      ensures old(acked) <= acked <= old(acked) + set e | e in events && !e.parseSuccess :: e.id
      ensures ok ==> forall e :: e in events && !e.parseSuccess ==> e.id in acked
      ensures old(deliveries) == [] ==> ok && deliveries == []
    {
      hide EndsIn, Invalid, Valid, Trace.Extends;
      var pending := Invalid(events);
      InvalidMember(events);
      var futures: seq<Outcome> := [];
      ghost var letters: set<nat> := {};
      ExtendsTransitive(trace, trace, trace);
      for i := 0 to |pending|
        invariant old(acked) <= acked <= old(acked) + set e | e in events && !e.parseSuccess :: e.id
        invariant Valid(good) && trace.tip.stage == Publishing(events, letters)
        invariant Traced(good, Publishing(events, letters)) && trace.Extends(old(trace))
        invariant |futures| == i && forall j :: 0 <= j < i && futures[j].Done? ==>
                    j in letters && pending[j].id in acked
        invariant old(deliveries) == [] ==> deliveries == [] && forall j :: 0 <= j < i ==> futures[j].Done?
      {
        var outcome;
        assert pending[i] in events;
        ghost var earlier := trace;
        outcome, letters := SendLetter(events, letters, i, good);
        ExtendsTransitive(old(trace), earlier, trace);
        if outcome.Broken? { return false; }
        futures := futures + [outcome];
      }
      for i := 0 to |futures|
        invariant forall j :: 0 <= j < i ==> futures[j].Done?
      {
        if !futures[i].Done? { return false; }
      }
      forall e | e in events && !e.parseSuccess ensures e.id in acked {
        var j :| 0 <= j < |pending| && pending[j] == e;
      }
      return true;
    }

    /** consumer.poll: at most batchSize records that follow the position; nothing when the script has no such. */
    method Poll(ghost good: set<string>) returns (events: seq<Event>)
      requires Valid(good) && position == committed && Traced(good, Idle)
      modifies this`position, this`polls, this`trace
      ensures Valid(good) && trace.Extends(old(trace))
      ensures Traced(good, if events == [] then Idle else trace.tip.stage)
              && (events != [] ==> Ready(trace.tip, events))
      ensures Offsets(log, old(position), position) && events == Fetched(log, old(position), position)
      ensures polls == if old(polls) == [] then [] else old(polls)[1..]
      ensures events != [] <==> old(polls) != [] && Offsets(log, old(position), old(polls)[0])
                                && 0 < |Fetched(log, old(position), old(polls)[0])| <= batchSize
      ensures position == if events == [] then old(position) else old(polls)[0]
    {
      hide LogSound, Secured, Sound, Separated, Fetched, EndsIn, Ready;
      events := [];
      NothingFetched(log, position);
      TipStage(trace, Present(), Idle, trino.cfg, batchSize, good);
      if polls != [] {
        var upTo := polls[0];
        polls := polls[1..];
        if Reachable(log, position, upTo, batchSize) {
          events := Fetched(log, position, upTo);
          trace := Polled(trace, Present(), upTo, trino.cfg, batchSize, good);
          position := upTo;
        }
      }
    }

    /** consumer.commit: the position becomes the committed offsets, once everything before it is safe. */
    method CommitOffsets(events: seq<Event>, ghost good: set<string>) returns (ok: bool)
      requires Valid(good) && events == Fetched(log, committed, position)
      requires forall e :: e in events ==> Stored(trino.store.tables, e) && (!e.parseSuccess ==> e.id in acked)
      requires Traced(good, trace.tip.stage) && AllSent(trace.tip.stage)
      modifies this`committed, this`deliveries, this`trace
      ensures Valid(good) && trace.Extends(old(trace)) && Traced(good, if ok then Idle else trace.tip.stage)
      ensures committed == position || (committed == old(committed) && !ok)
      ensures old(deliveries) == [] ==> ok && deliveries == []
    {
      hide LogSound, Secured, Stored, Sound, Separated, Fetched, Invalid, EndsIn;
      ghost var world := Present();
      var outcome := Deliver();
      BatchSecured(trino.store.tables, log, committed, position, acked);
      if Applied(outcome) {
        trace := Committed(trace, world, trace.tip.stage, trino.cfg, batchSize, good);
        committed := position;
      }
      ok := outcome.Done?;
    }

    lemma BatchIsSound(events: seq<Event>, good: set<string>)
      requires Valid(good) && events == Fetched(log, committed, position)
      ensures ParsesAs(events, good) && !AnyBlank(events) && Offsets(log, committed, position)
      ensures LogStorable(log, trino.cfg) ==> AllStorable(events, trino.cfg)
    {
      hide LogSound, Secured, Sound, Separated, Fetched, AllStorable, LogStorable;
      BatchOfLog(log, committed, position, good);
      if LogStorable(log, trino.cfg) { FetchedStorable(log, committed, position, trino.cfg); }
    }

    /** One polled batch: store it, publish its dead letters, then commit; None means the loop goes on. */
    method Handle(events: seq<Event>, ghost good: set<string>) returns (exit: Option<Exit>)
      requires Valid(good) && events == Fetched(log, committed, position) && events != []
      requires Traced(good, trace.tip.stage) && Ready(trace.tip, events)
      modifies this`patience, this`acked, this`deliveries, this`committed, this`trace, trino
      ensures trace.Extends(old(trace)) && Traced(good, if exit.None? then Idle else trace.tip.stage)
      ensures Valid(good) && Grows(old(trino.store.tables), trino.store.tables) && old(acked) <= acked
      ensures committed == position || (committed == old(committed) && exit.Some?)
      ensures patience <= old(patience) && (exit == Some(Stopped) ==> patience == 0)
      ensures old(Undisturbed()) ==>
                && Undisturbed()
                && if old(patience) == 0 then exit == Some(Stopped) && committed == old(committed)
                   else exit == None && patience == old(patience) - 1
    {
      hide Stored, Grows, Fetched, ParsesAs, AllStorable, LogStorable, EndsIn, Ready, Valid, AnyBlank, Invalid,
        Trace.Extends;
      BatchIsSound(events, good);
      var result := IngestWithRetry(events, good);
      if result.None? { return Some(Stopped); }
      ghost var stored := trace;
      var published := PublishDeadLetters(events, good);
      ExtendsTransitive(old(trace), stored, trace);
      if !published { return Some(Crashed); }
      if result.value.status in {Completed, CompletedWithQuarantine} {
        ghost var letters := trace;
        var committed' := CommitOffsets(events, good);
        ExtendsTransitive(old(trace), letters, trace);
        if !committed' { return Some(Crashed); }
      }
      return None;
    }

    /** The body of the loop, after the stop flag was found unset. */
    method Cycle(ghost good: set<string>) returns (exit: Option<Exit>)
      requires Valid(good) && position == committed && Traced(good, Idle)
      modifies this, trino
      ensures Valid(good) && Grows(old(trino.store.tables), trino.store.tables) && old(acked) <= acked
      ensures trace.Extends(old(trace)) && Traced(good, if exit.None? then Idle else trace.tip.stage)
      ensures Offsets(log, old(committed), committed) && (exit.None? ==> position == committed)
      ensures patience <= old(patience) && (exit == Some(Stopped) ==> patience == 0)
      ensures old(Undisturbed()) ==>
                && Undisturbed() && exit != Some(Crashed)
                && Consumed(log, old(committed), old(polls), batchSize, old(patience) + 1)
                   == if exit.None? then Consumed(log, committed, polls, batchSize, patience) else committed
    {
      hide Stored, Grows, Fetched, ParsesAs, LogStorable, Consumed, Reachable, Valid, EndsIn, Ready, Trace.Extends;
      ConsumedStep(log, committed, polls, batchSize, patience + 1);
      if polls != [] { ReachableExact(log, committed, polls[0], batchSize); }
      StartsInRange(good);
      GrowsReflexive(trino.store.tables);
      ghost var earlier := trace;
      var events := Poll(good);
      exit := None;
      if events != [] {
        ghost var polled := trace;
        exit := Handle(events, good);
        ExtendsTransitive(earlier, polled, trace);
      }
      ConsumedStep(log, committed, polls, batchSize, patience);
    }

    /**
     * main. However the scripts go, and wherever the loop ends, every record below the committed offsets is
     * stored and, if invalid, has its dead letter; offsets and tables only move forward. It only stops when told
     * to, and when nothing fails it commits every batch that it finished before that. The whole run is a history
     * of the transition system.
     */
    method Run(ghost good: set<string>) returns (exit: Exit)
      requires Valid(good) && position == committed && Traced(good, Idle)
      modifies this, trino
      ensures Valid(good) && Grows(old(trino.store.tables), trino.store.tables)
      ensures Offsets(log, old(committed), committed) && old(acked) <= acked
      ensures trace.Extends(old(trace)) && Traced(good, trace.tip.stage)
      ensures exit == Stopped ==> patience == 0
      ensures old(Undisturbed()) ==>
                exit == Stopped && committed == Consumed(log, old(committed), old(polls), batchSize, old(patience))
    {
      hide Stored, Grows, Fetched, LogStorable, Consumed, Valid, EndsIn, Offsets, Trace.Extends;
      GrowsReflexive(trino.store.tables);
      TipStage(trace, Present(), Idle, trino.cfg, batchSize, good);
      StartsInRange(good);
      ConsumedStep(log, committed, polls, batchSize, patience);
      var stop := IsStopped();
      while !stop
        invariant Valid(good) && position == committed && Grows(old(trino.store.tables), trino.store.tables)
        invariant Offsets(log, old(committed), committed) && old(acked) <= acked
        invariant stop ==> patience == 0
        invariant Traced(good, Idle) && trace.Extends(old(trace))
        invariant old(Undisturbed()) ==>
          && Undisturbed()
          && Consumed(log, old(committed), old(polls), batchSize, old(patience))
             == if stop then committed else Consumed(log, committed, polls, batchSize, patience + 1)
        decreases patience, !stop
      {
        ghost var before, offsets, earlier := trino.store.tables, committed, trace;
        var end := Cycle(good);
        ExtendsTransitive(old(trace), earlier, trace);
        W.GrowsTransitive(old(trino.store.tables), before, trino.store.tables);
        OffsetsTransitive(log, old(committed), offsets, committed);
        if end.Some? { return end.value; }
        ConsumedStep(log, committed, polls, batchSize, patience);
        stop := IsStopped();
      }
      TipStage(trace, Present(), Idle, trino.cfg, batchSize, good);
      return Stopped;
    }
  }

  lemma OffsetsTransitive(log: seq<seq<Event>>, a: seq<nat>, b: seq<nat>, c: seq<nat>)
    requires Offsets(log, a, b) && Offsets(log, b, c)
    ensures Offsets(log, a, c)
  {
  }

  lemma ConsumedStep(log: seq<seq<Event>>, from: seq<nat>, polls: seq<seq<nat>>, batchSize: nat, patience: nat)
    ensures patience == 0 || polls == [] ==> Consumed(log, from, polls, batchSize, patience) == from
    ensures patience > 0 && polls != [] ==>
      Consumed(log, from, polls, batchSize, patience) ==
        if !Reachable(log, from, polls[0], batchSize) then Consumed(log, from, polls[1..], batchSize, patience - 1)
        else if patience == 1 then from
        else Consumed(log, polls[0], polls[1..], batchSize, patience - 2)
  {
    hide Reachable;
  }

  lemma {:induction false} NothingFetched(log: seq<seq<Event>>, offsets: seq<nat>)
    requires Offsets(log, offsets, offsets)
    ensures Fetched(log, offsets, offsets) == []
  {
    if log != [] { NothingFetched(log[1..], offsets[1..]); }
  }

  lemma FetchedStorable(log: seq<seq<Event>>, from: seq<nat>, upTo: seq<nat>, cfg: Config)
    requires Offsets(log, from, upTo)
    requires LogStorable(log, cfg)
    ensures AllStorable(Fetched(log, from, upTo), cfg)
  {
    hide Fetched, Storable;
    forall e | e in Fetched(log, from, upTo) ensures Storable(e, cfg) { FetchedMember(log, from, upTo, e); }
  }
}
