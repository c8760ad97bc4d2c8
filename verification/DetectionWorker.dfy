/** The polling loop of the detection worker, as a history of polls and arrivals. */
module DetectionWorker {
  import opened AuthEvents
  import opened Rules
  import opened RuleIds
  import opened Tables
  import opened DetectionStores

  /** What the loop meets before a poll: events that arrived in the meantime, and the time. */
  datatype Tick = Tick(arrived: seq<AuthEvent>, now: int)

  function Arrived(ticks: seq<Tick>): seq<AuthEvent> {
    if ticks == [] then [] else Arrived(ticks[..|ticks| - 1]) + ticks[|ticks| - 1].arrived
  }

  lemma {:induction false} ArrivedPrefix(ticks: seq<Tick>, i: nat)
    requires i <= |ticks|
    ensures Arrived(ticks[..i]) <= Arrived(ticks)
  {
    if i == |ticks| {
      assert ticks[..i] == ticks;
    } else {
      ArrivedPrefix(ticks[..|ticks| - 1], i);
      assert ticks[..|ticks| - 1][..i] == ticks[..i];
    }
  }

  lemma ArrivedSnoc(ticks: seq<Tick>, tick: Tick)
    ensures Arrived(ticks + [tick]) == Arrived(ticks) + tick.arrived
  {
    assert (ticks + [tick])[..|ticks|] == ticks;
  }

  lemma NothingArrived(ticks: seq<Tick>)
    ensures Arrived(ticks[..0]) == []
  {
  }

  lemma TakeSnoc<T>(s: seq<T>, i: nat)
    requires i < |s|
    ensures s[..i + 1] == s[..i] + [s[i]]
  {
  }

  lemma ArrivedStep(ticks: seq<Tick>, i: nat)
    requires i < |ticks|
    ensures Arrived(ticks[..i + 1]) == Arrived(ticks[..i]) + ticks[i].arrived
            && Arrived(ticks[..i + 1]) <= Arrived(ticks)
    ensures ticks[..i + 1] == ticks[..i] + [ticks[i]]
  {
    hide Arrived;
    TakeSnoc(ticks, i);
    ArrivedPrefix(ticks, i + 1);
    ArrivedSnoc(ticks[..i], ticks[i]);
  }

  lemma ConsistentPart(all: seq<AuthEvent>, part: seq<AuthEvent>)
    requires Consistent(all) && part <= all
    ensures Consistent(part)
  {
    assert forall e :: e in part ==> e in all;
  }

  function Lookback(cfg: Settings): int { cfg.lookbackSeconds * MICROS }

  /** The step of a poll at `now` that stored n findings. */
  function PollAt(now: int, n: nat, cfg: Settings): Step { Poll(now - Lookback(cfg), now, n) }

  ghost function StateOf(store: DetectionStore): State
    reads store
  {
    State(store.logs, store.detections)
  }

  lemma HistorySnoc(states: seq<State>, steps: seq<Step>, step: Step, cfg: Settings)
    requires cfg.Valid() && History(states, steps, cfg) && Enabled(states[|steps|], step, cfg)
    ensures
      var states' := states + [Next(states[|steps|], step, cfg)];
      History(states', steps + [step], cfg) && states'[0] == states[0] && |states'| == |steps| + 2
  {
    hide Enabled, Next;
  }

  /** The poll at `now` reads its range and finds only what can be written. */
  ghost predicate ClearAt(logs: seq<AuthEvent>, now: int, store: DetectionStore, cfg: Settings)
    requires cfg.Valid()
  {
    Clear(Found(logs, now - Lookback(cfg), now, cfg), store.valuesOf, store.maxBytes)
  }

  /** Every step is the poll of its tick, completed whenever its scan is clear. */
  ghost predicate AllPolls(states: seq<State>, steps: seq<Step>, ticks: seq<Tick>, logs: seq<AuthEvent>,
                           store: DetectionStore, cfg: Settings)
    requires cfg.Valid()
  {
    && |states| == |steps| + 1 && |steps| == |ticks|
    && forall j :: 0 <= j < |ticks| ==>
         && steps[j].Poll? && steps[j].start == ticks[j].now - Lookback(cfg) && steps[j].end == ticks[j].now
         && (ClearAt(logs, ticks[j].now, store, cfg) ==> Complete(states[j], steps[j], cfg))
  }

  lemma PollsSnoc(states: seq<State>, steps: seq<Step>, ticks: seq<Tick>, logs: seq<AuthEvent>, store: DetectionStore,
                  cfg: Settings, tick: Tick, n: nat, next: State)
    requires cfg.Valid() && AllPolls(states, steps, ticks, logs, store, cfg)
    requires ClearAt(logs, tick.now, store, cfg) ==>
               Complete(states[|steps|], PollAt(tick.now, n, cfg), cfg)
    ensures AllPolls(states + [next], steps + [PollAt(tick.now, n, cfg)], ticks + [tick], logs, store, cfg)
  {
    hide ClearAt, Complete;
  }

  /** Passes whose gaps stay within the lookback, each of which reads its range and can write what it finds. */
  ghost predicate Settled(ticks: seq<Tick>, logs: seq<AuthEvent>, store: DetectionStore, cfg: Settings)
    requires cfg.Valid()
  {
    && ticks != []
    && (forall i :: 0 < i < |ticks| ==> ticks[i - 1].now <= ticks[i].now <= ticks[i - 1].now + Lookback(cfg))
    && forall i :: 0 <= i < |ticks| ==> ClearAt(logs, ticks[i].now, store, cfg)
  }

  lemma SettledIsOneScan(states: seq<State>, steps: seq<Step>, ticks: seq<Tick>, store: DetectionStore, cfg: Settings)
    requires cfg.Valid() && History(states, steps, cfg) && Inv(states[0], cfg) && states[0].detections == []
    requires AllPolls(states, steps, ticks, states[0].logs, store, cfg) && Settled(ticks, states[0].logs, store, cfg)
    ensures Keys(states[|steps|].detections)
         == Ids(Detections(states[0].logs, ticks[0].now - Lookback(cfg), ticks[|ticks| - 1].now, cfg))
  {
    hide Inv, History, Detections, ClearAt, Complete;
    PollingIsOneScan(states, steps, seq(|ticks|, j requires 0 <= j < |ticks| => ticks[j].now), cfg);
  }

  lemma ArriveStep(s: State, events: seq<AuthEvent>, cfg: Settings)
    requires cfg.Valid() && Consistent(s.logs + events)
    ensures Enabled(s, Arrive(events), cfg) && Next(s, Arrive(events), cfg) == State(s.logs + events, s.detections)
  {
  }

  lemma FirstState(s: State, logs: seq<AuthEvent>, store: DetectionStore, cfg: Settings)
    requires cfg.Valid()
    ensures History([s], [], cfg) && AllPolls([s], [], [], logs, store, cfg)
  {
  }

  /** A completed pass stores exactly what the events of the lookback justify, next to what was stored before. */
  lemma PassStores(s: State, now: int, n: nat, cfg: Settings)
    requires cfg.Valid() && Consistent(s.logs) && Unique(s.detections) && Enabled(s, PollAt(now, n, cfg), cfg)
    requires Complete(s, PollAt(now, n, cfg), cfg)
    ensures
      forall id :: id in Keys(Next(s, PollAt(now, n, cfg), cfg).detections) <==>
        || id in Keys(s.detections)
        || Justified(id, Eligibles(s.logs), now - cfg.lookbackSeconds * 1_000_000, now, cfg)
  {
    hide Enabled, Next, Complete, Justified, Consistent, Unique, Eligibles;
    PollAdds(s, PollAt(now, n, cfg), cfg);
    KeysGrow(s.detections, Next(s, PollAt(now, n, cfg), cfg).detections);
  }

  /** Step k is the poll of this tick over these events, complete if nothing fails and its scan is clear. */
  ghost predicate RecordedAt(states: seq<State>, steps: seq<Step>, k: nat, tick: Tick, logs: seq<AuthEvent>,
                             store: DetectionStore, cfg: Settings, quiet: bool)
    requires cfg.Valid()
  {
    && k < |steps| && k < |states| && steps[k].Poll? && states[k].logs == logs
    && steps[k].start == tick.now - cfg.lookbackSeconds * 1_000_000 && steps[k].end == tick.now
    && (quiet && ClearAt(logs, tick.now, store, cfg) ==> Complete(states[k], steps[k], cfg))
  }

  /** Every tick has such a step. */
  ghost predicate Recorded(states: seq<State>, steps: seq<Step>, ticks: seq<Tick>, at: seq<nat>, logs: seq<AuthEvent>,
                           store: DetectionStore, cfg: Settings, quiet: bool)
    requires cfg.Valid()
  {
    && |at| == |ticks|
    && forall j :: 0 <= j < |at| ==>
         RecordedAt(states, steps, at[j], ticks[j], logs + Arrived(ticks[..j + 1]), store, cfg, quiet)
  }

  lemma RecordedSnoc(states: seq<State>, steps: seq<Step>, ticks: seq<Tick>, at: seq<nat>, logs: seq<AuthEvent>,
                     store: DetectionStore, cfg: Settings, quiet: bool,
                     states': seq<State>, steps': seq<Step>, tick: Tick, k: nat, seen: seq<AuthEvent>, quiet': bool)
    requires cfg.Valid() && Recorded(states, steps, ticks, at, logs, store, cfg, quiet)
    requires states <= states' && steps <= steps'
    requires RecordedAt(states', steps', k, tick, seen, store, cfg, quiet') && (quiet ==> quiet')
    requires seen == logs + Arrived(ticks + [tick])
    ensures Recorded(states', steps', ticks + [tick], at + [k], logs, store, cfg, quiet)
  {
    hide ClearAt, Complete, Arrived;
    forall j | 0 <= j < |ticks| + 1
      ensures RecordedAt(states', steps', (at + [k])[j], (ticks + [tick])[j],
                         logs + Arrived((ticks + [tick])[..j + 1]), store, cfg, quiet)
    {
      if j < |ticks| {
        assert (ticks + [tick])[..j + 1] == ticks[..j + 1];
      } else {
        assert (ticks + [tick])[..j + 1] == ticks + [tick];
      }
    }
  }

  /** What a clear pass saw justified in its lookback is stored when the loop ends, late arrivals included. */
  ghost predicate LateFound(ticks: seq<Tick>, i: nat, logs: seq<AuthEvent>, stored: set<FindingId>,
                            store: DetectionStore, cfg: Settings)
    requires cfg.Valid() && i < |ticks|
  {
    var seen, now := logs + Arrived(ticks[..i + 1]), ticks[i].now;
    ClearAt(seen, now, store, cfg) ==>
      forall id :: Justified(id, Eligibles(seen), now - cfg.lookbackSeconds * 1_000_000, now, cfg) ==> id in stored
  }

  lemma RecordedFound(states: seq<State>, steps: seq<Step>, ticks: seq<Tick>, at: seq<nat>, logs: seq<AuthEvent>,
                      store: DetectionStore, cfg: Settings, i: nat)
    requires cfg.Valid() && |states| == |steps| + 1 && History(states, steps, cfg) && Inv(states[0], cfg)
    requires Recorded(states, steps, ticks, at, logs, store, cfg, true) && i < |ticks|
    ensures LateFound(ticks, i, logs, Keys(states[|steps|].detections), store, cfg)
  {
    hide Inv, History, ClearAt, Complete, Justified, Arrived, Eligibles;
    var seen, now := logs + Arrived(ticks[..i + 1]), ticks[i].now;
    assert RecordedAt(states, steps, at[i], ticks[i], seen, store, cfg, true);
    if ClearAt(seen, now, store, cfg) {
      forall id | Justified(id, Eligibles(seen), now - cfg.lookbackSeconds * 1_000_000, now, cfg)
        ensures id in Keys(states[|steps|].detections)
      {
        CompletedPollStays(states, steps, cfg, at[i], |steps|, id);
      }
    }
  }

  lemma NothingRecorded(s: State, logs: seq<AuthEvent>, store: DetectionStore, cfg: Settings, quiet: bool)
    requires cfg.Valid()
    ensures Recorded([s], [], [], [], logs, store, cfg, quiet)
  {
  }

  class Worker {
    const store: DetectionStore
    const cfg: Settings
    var initialized: bool

    constructor (store: DetectionStore, cfg: Settings)
      ensures this.store == store && this.cfg == cfg && !initialized
    {
      this.store, this.cfg, this.initialized := store, cfg, false;
    }

    /** One pass of the loop: a failure anywhere leaves a poll that stored the first n of its findings. */
    method Pass(now: int) returns (ok: bool, ghost n: nat)
      requires store.batchSize > 0 && cfg.Valid()
      modifies this`initialized, store`detections, store`script
      ensures Enabled(old(StateOf(store)), PollAt(now, n, cfg), cfg)
      ensures StateOf(store) == Next(old(StateOf(store)), PollAt(now, n, cfg), cfg)
      ensures ok ==> Complete(old(StateOf(store)), PollAt(now, n, cfg), cfg) && initialized
      ensures old(initialized) ==> initialized
      ensures !old(initialized) && old(store.script) != [] && !old(store.script)[0].Done? ==>
                !ok && !initialized && StateOf(store) == old(StateOf(store))
      ensures old(store.script) == [] ==>
                store.script == [] && (ok <==> ClearAt(store.logs, now, store, cfg))
      ensures ok && Consistent(store.logs) && Unique(old(store.detections)) ==>
                forall id :: id in Keys(store.detections) <==>
                  || id in Keys(old(store.detections))
                  || Justified(id, Eligibles(store.logs), now - cfg.lookbackSeconds * 1_000_000, now, cfg)
    {
      hide Found, Merge, AsRows, Writable, Justified, Consistent, Unique, Eligibles;
      ghost var found := Found(store.logs, now - Lookback(cfg), now, cfg);
      MergeNothing(store.detections);
      if !initialized {
        var outcome := store.Send();
        if !outcome.Done? { return false, 0; }
        initialized := true;
      }
      var result;
      result, n := store.RunOnce(At(now - Lookback(cfg)), At(now), cfg);
      ok := result.Success?;
      if found.None? { n := 0; }
      if ok && Consistent(store.logs) && Unique(old(store.detections)) {
        PassStores(old(StateOf(store)), now, n, cfg);
      }
    }

    /** What arrived since the last pass, then the pass, appended to the history. */
    method Turn(tick: Tick, ghost states: seq<State>, ghost steps: seq<Step>)
        returns (ghost states': seq<State>, ghost steps': seq<Step>, ghost n: nat)
      requires store.batchSize > 0 && cfg.Valid() && Consistent(store.logs + tick.arrived)
      requires |states| == |steps| + 1 && History(states, steps, cfg) && states[|steps|] == StateOf(store)
      modifies this`initialized, store`logs, store`detections, store`script
      ensures store.logs == old(store.logs) + tick.arrived
      ensures |states'| == |steps'| + 1 && History(states', steps', cfg)
      ensures states'[0] == states[0] && states'[|steps'|] == StateOf(store)
      ensures |states| <= |steps'| && states <= states' && steps <= steps'
      ensures old(store.script) == [] ==> store.script == []
      ensures RecordedAt(states', steps', |steps'| - 1, tick, store.logs, store, cfg, old(store.script) == [])
      ensures tick.arrived == [] && old(store.script) == [] ==>
                && store.script == [] && states' == states + [StateOf(store)]
                && steps' == steps + [PollAt(tick.now, n, cfg)]
                && (ClearAt(old(store.logs), tick.now, store, cfg) ==>
                      Complete(states[|steps|], PollAt(tick.now, n, cfg), cfg))
    {
      hide Enabled, Next, ClearAt, Consistent, History, Complete;
      states', steps' := states, steps;
      if tick.arrived != [] {
        store.logs := store.logs + tick.arrived;
        ArriveStep(states[|steps|], tick.arrived, cfg);
        HistorySnoc(states, steps, Arrive(tick.arrived), cfg);
        states', steps' := states + [StateOf(store)], steps + [Arrive(tick.arrived)];
      }
      var ok;
      ok, n := Pass(tick.now);
      HistorySnoc(states', steps', PollAt(tick.now, n, cfg), cfg);
      states', steps' := states' + [StateOf(store)], steps' + [PollAt(tick.now, n, cfg)];
    }

    /**
     * main. Every pass is one poll over the lookback; failed passes are logged and the loop goes on. Whatever
     * fails and whatever arrives late, every stored finding is justified by the events and keeps its first form.
     * When nothing fails, whatever a pass could see justified within its lookback ends up stored; when nothing
     * arrives either, the findings are those of one scan over the whole time polled.
     */
    method Run(ticks: seq<Tick>) returns (ghost states: seq<State>, ghost steps: seq<Step>)
      requires store.batchSize > 0 && cfg.Valid() && Inv(StateOf(store), cfg)
      requires Consistent(store.logs + Arrived(ticks))
      modifies this`initialized, store`logs, store`detections, store`script
      ensures store.logs == old(store.logs) + Arrived(ticks)
      ensures History(states, steps, cfg) && states[0] == old(StateOf(store)) && states[|steps|] == StateOf(store)
      ensures Inv(StateOf(store), cfg) && old(store.detections) <= store.detections
      ensures old(store.script) == [] ==>
                forall i :: 0 <= i < |ticks| ==>
                  LateFound(ticks, i, old(store.logs), Keys(store.detections), store, cfg)
      ensures
        && Arrived(ticks) == [] && old(store.script) == [] && old(store.detections) == []
        && Settled(ticks, old(store.logs), store, cfg) ==>
                Keys(store.detections)
                == Ids(Detections(old(store.logs), ticks[0].now - cfg.lookbackSeconds * 1_000_000,
                                  ticks[|ticks| - 1].now, cfg))
    {
      hide Inv, Enabled, Next, ClearAt, Detections, Consistent, AllPolls, History, Settled, Complete, Arrived, Recorded,
        RecordedAt, LateFound;
      NothingArrived(ticks);
      states, steps := [StateOf(store)], [];
      FirstState(StateOf(store), store.logs, store, cfg);
      ghost var quiet, calm := Arrived(ticks) == [] && store.script == [], store.script == [];
      ghost var at: seq<nat> := [];
      NothingRecorded(StateOf(store), store.logs, store, cfg, calm);
      for i := 0 to |ticks|
        invariant store.logs == old(store.logs) + Arrived(ticks[..i])
        invariant |states| == |steps| + 1 && History(states, steps, cfg)
        invariant states[0] == old(StateOf(store)) && states[|steps|] == StateOf(store)
        invariant calm ==> store.script == []
        invariant Recorded(states, steps, ticks[..i], at, old(store.logs), store, cfg, calm)
        invariant quiet ==> store.script == [] && AllPolls(states, steps, ticks[..i], old(store.logs), store, cfg)
      {
        assert ticks[..i] + [ticks[i]] == ticks[..i + 1];
        ArrivedStep(ticks, i);
        ConsistentPart(old(store.logs) + Arrived(ticks), store.logs + ticks[i].arrived);
        ghost var before, done := states, steps;
        ghost var n, silent := 0, store.script == [];
        states, steps, n := Turn(ticks[i], states, steps);
        RecordedSnoc(before, done, ticks[..i], at, old(store.logs), store, cfg, calm,
                     states, steps, ticks[i], |steps| - 1, store.logs, silent);
        at := at + [|steps| - 1];
        if quiet { PollsSnoc(before, done, ticks[..i], old(store.logs), store, cfg, ticks[i], n, StateOf(store)); }
      }
      assert ticks[..|ticks|] == ticks;
      StoredIdsJustified(states, steps, cfg, 0, |steps|);
      if calm {
        forall i | 0 <= i < |ticks|
          ensures LateFound(ticks, i, old(store.logs), Keys(store.detections), store, cfg)
        {
          RecordedFound(states, steps, ticks, at, old(store.logs), store, cfg, i);
        }
      }
      if quiet && old(store.detections) == [] && Settled(ticks, old(store.logs), store, cfg) {
        SettledIsOneScan(states, steps, ticks, store, cfg);
      }
    }
  }
}
