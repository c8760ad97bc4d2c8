/** Any number of ingestion runs against the same tables, interleaved statement by statement. */
module Writers {
  import opened Tables
  import opened Batcher
  import opened Lake
  import opened Plans
  import opened TrinoRuns

  datatype Phase =
    | Working
    | Dead  // crashed, or recorded as FAILED
    | Finished(committed: nat, quarantined: nat, duplicates: int)

  /** A run: the statements it will send, how many were acknowledged, and whether they are all of its work. */
  datatype Writer = Writer(received: seq<Event>, plan: seq<Statement>, done: nat, whole: bool, phase: Phase)

  /** The run id of a writer is its index. */
  datatype State = State(tables: EventTables, writers: seq<Writer>)

  datatype Step =
    | Start(received: seq<Event>)
    | Land(w: nat)      // the current statement takes effect, but the run never learns of it, or only later
    | Advance(w: nat)   // the current statement is acknowledged
    | Die(w: nat)
    | Finish(w: nat)

  function NewWriter(received: seq<Event>, run: nat, cfg: Config): Writer {
    var (plan, whole) := Plan(Items(received, run), cfg);
    Writer(received, plan, 0, whole, Working)
  }

  predicate Enabled(s: State, step: Step) {
    match step
    case Start(received) => received != [] && !AnyBlank(received)
    case Land(w) => w < |s.writers| && s.writers[w].done < |s.writers[w].plan|
    case Advance(w) => w < |s.writers| && s.writers[w].phase == Working && s.writers[w].done < |s.writers[w].plan|
    case Die(w) => w < |s.writers| && s.writers[w].phase == Working
    case Finish(w) =>
      && w < |s.writers| && s.writers[w].phase == Working
      && s.writers[w].done == |s.writers[w].plan| && s.writers[w].whole
  }

  function Next(s: State, step: Step, cfg: Config): State
    requires Enabled(s, step)
  {
    match step
    case Start(received) => s.(writers := s.writers + [NewWriter(received, |s.writers|, cfg)])
    case Land(w) => s.(tables := Send(s.tables, s.writers[w].plan[s.writers[w].done]))
    case Advance(w) =>
      var writer := s.writers[w];
      State(Send(s.tables, writer.plan[writer.done]), s.writers[w := writer.(done := writer.done + 1)])
    case Die(w) => s.(writers := s.writers[w := s.writers[w].(phase := Dead)])
    case Finish(w) =>
      var writer := s.writers[w];
      var committed, quarantined := CountForRun(s.tables.normalized, w), CountForRun(s.tables.quarantine, w);
      var items := Items(writer.received, w);
      var duplicates := (|writer.received| - |items|) + |items| - committed - quarantined;
      s.(writers := s.writers[w := writer.(phase := Finished(committed, quarantined, duplicates))])
  }

  // ---------------------------------------------------------------- what a plan contains

  /** The keys that the first n statements carry for one table. */
  ghost function Carried(plan: seq<Statement>, n: nat, k: Kind): set<string>
    requires n <= |plan|
  {
    set i, r | 0 <= i < n && plan[i].kind == k && r in plan[i].batch :: r.key
  }

  /**
   * Statements only carry items of their own table, each batch without repeats; by the time a statement for
   * another table comes up, the raw rows of all items were sent.
   */
  ghost predicate PlanFits(w: Writer, run: nat) {
    var items := Items(w.received, run);
    && (forall i :: 0 <= i < |w.plan| ==>
          Unique(w.plan[i].batch) && forall r :: r in w.plan[i].batch ==> r in RowsFor(w.plan[i].kind, items))
    && (forall i :: 0 <= i < |w.plan| && w.plan[i].kind != Raw ==> Keys(items) <= Carried(w.plan, i, Raw))
    && (w.whole ==> forall k: Kind :: Keys(RowsFor(k, items)) <= Carried(w.plan, |w.plan|, k))
  }

  lemma {:induction false} StatementsCarry(k: Kind, sent: seq<seq<Sized<EventRow>>>, rows: seq<EventRow>)
    requires Strip(Concat(sent)) <= rows && Unique(rows)
    ensures forall i :: 0 <= i < |StatementsOf(k, sent)| ==> StatementsOf(k, sent)[i].kind == k
    ensures forall i :: 0 <= i < |StatementsOf(k, sent)| ==>
              Unique(StatementsOf(k, sent)[i].batch) && forall r :: r in StatementsOf(k, sent)[i].batch ==> r in rows
    ensures Carried(StatementsOf(k, sent), |StatementsOf(k, sent)|, k) == Keys(Strip(Concat(sent)))
  {
    if sent == [] {
      NoKeys(Strip(Concat(sent)));
    } else {
      hide Unique;
      var n := |sent| - 1;
      var front, last := sent[..n], sent[n];
      StripOfTwo(Concat(front), last);
      var batch := Strip(last);
      assert Strip(Concat(sent)) == Strip(Concat(front)) + batch;
      StatementsCarry(k, front, rows);
      StretchUnique(rows, Strip(Concat(front)), batch);
      KeysOfTwo(Strip(Concat(front)), batch);
      CarriedSnoc(StatementsOf(k, front), Statement(k, batch), k);
    }
  }

  lemma StretchUnique(rows: seq<EventRow>, a: seq<EventRow>, b: seq<EventRow>)
    requires a + b <= rows && Unique(rows)
    ensures Unique(b) && forall r :: r in b ==> r in rows
  {
    assert rows == (a + b) + rows[|a + b|..];
    UniquePrefix(a + b, rows[|a + b|..]);
    UniquePrefix(a, b);
    forall r | r in b ensures r in rows { assert r in a + b; }
  }

  lemma CarriedSnoc(plan: seq<Statement>, st: Statement, k: Kind)
    ensures Carried(plan + [st], |plan| + 1, k)
              == Carried(plan, |plan|, k) + (if st.kind == k then Keys(st.batch) else {})
  {
    var more := plan + [st];
    forall id
      ensures id in Carried(more, |more|, k) <==>
                id in Carried(plan, |plan|, k) || (st.kind == k && id in Keys(st.batch))
    {
      if id in Carried(more, |more|, k) {
        var i, r :| 0 <= i < |more| && more[i].kind == k && r in more[i].batch && r.key == id;
        if i < |plan| { assert plan[i] == more[i]; }
      }
      if id in Carried(plan, |plan|, k) {
        var i, r :| 0 <= i < |plan| && plan[i].kind == k && r in plan[i].batch && r.key == id;
        assert more[i] == plan[i];
      }
      if st.kind == k && id in Keys(st.batch) {
        var r :| r in st.batch && r.key == id;
        assert more[|plan|] == st;
      }
    }
  }

  lemma CarriedPrefix(plan: seq<Statement>, more: seq<Statement>, n: nat, m: nat, k: Kind)
    requires plan <= more && n <= m && n <= |plan| && m <= |more|
    ensures Carried(plan, n, k) <= Carried(more, m, k)
  {
    forall id | id in Carried(plan, n, k) ensures id in Carried(more, m, k) {
      var i, r :| 0 <= i < n && plan[i].kind == k && r in plan[i].batch && r.key == id;
      assert more[i] == plan[i];
    }
  }

  lemma CarriedSuffix(a: seq<Statement>, b: seq<Statement>, k: Kind)
    ensures Carried(b, |b|, k) <= Carried(a + b, |a + b|, k)
  {
    forall id | id in Carried(b, |b|, k) ensures id in Carried(a + b, |a + b|, k) {
      var i, r :| 0 <= i < |b| && b[i].kind == k && r in b[i].batch && r.key == id;
      assert (a + b)[|a| + i] == b[i];
    }
  }

  /** The statements of one table: items of that table, and all of them unless one is oversize. */
  lemma StatementsForCarry(k: Kind, rows: seq<EventRow>, cfg: Config)
    requires cfg.Valid() && Unique(rows)
    ensures var sts := StatementsFor(k, rows, cfg);
            && (forall i :: 0 <= i < |sts| ==> sts[i].kind == k)
            && (forall i :: 0 <= i < |sts| ==> Unique(sts[i].batch) && forall r :: r in sts[i].batch ==> r in rows)
            && (NoOversize(k, rows, cfg) ==> Keys(rows) <= Carried(sts, |sts|, k))
  {
    hide SizedRows, Sent, Strip, Concat, StatementsOf, Unique, FirstOversize;
    var sized := SizedRows(k, rows, cfg);
    var sent := Sent(sized, cfg.Limits(k));
    StripSized(k, rows, cfg);
    SentIsPrefix(sized, cfg.Limits(k));
    var tail := sized[|Concat(sent)|..];
    assert sized[..FirstOversize(sized, cfg.Limits(k))] <= sized;
    assert sized == Concat(sent) + tail;
    StripOfTwo(Concat(sent), tail);
    StatementsCarry(k, sent, rows);
  }

  lemma NewWriterFits(received: seq<Event>, run: nat, cfg: Config)
    requires cfg.Valid()
    ensures PlanFits(NewWriter(received, run, cfg), run)
  {
    hide Items, Parsed, StatementsFor, NoOversize, Checked, Carried, Unique, Keys;
    var items := Items(received, run);
    ItemsOwned(received, run);
    RowsForOwned(Normalized, items, run);
    RowsForOwned(Quarantine, items, run);
    var valid, invalid := Parsed(items, true), Parsed(items, false);
    var a, b := StatementsFor(Raw, items, cfg), StatementsFor(Normalized, valid, cfg);
    var c := StatementsFor(Quarantine, invalid, cfg);
    StatementsForCarry(Raw, items, cfg);
    StatementsForCarry(Normalized, valid, cfg);
    StatementsForCarry(Quarantine, invalid, cfg);
    var plan := NewWriter(received, run, cfg).plan;
    if Checked(items, cfg) {
      assert a <= plan;
      forall i | |a| <= i <= |plan| ensures Carried(a, |a|, Raw) <= Carried(plan, i, Raw) {
        CarriedPrefix(a, plan, |a|, i, Raw);
      }
      if NoOversize(Raw, items, cfg) && NoOversize(Normalized, valid, cfg) {
        CarriedSuffix(a, b, Normalized);
        CarriedPrefix(a + b, a + b + c, |a + b|, |a + b + c|, Normalized);
        CarriedSuffix(a + b, c, Quarantine);
      }
    }
  }

  // ---------------------------------------------------------------- the invariant

  /** One row per id and table; raw rows first. */
  ghost predicate TablesSound(t: EventTables) {
    && (forall k: Kind :: Unique(t.Of(k)))
    && Keys(t.normalized) <= Keys(t.raw) && Keys(t.quarantine) <= Keys(t.raw)
  }

  /** Every stored row is an item of the run it names, in the table that item belongs to. */
  ghost predicate RowsExplained(s: State) {
    forall k: Kind, r :: r in s.tables.Of(k) ==>
      r.value.run < |s.writers| && r in RowsFor(k, Items(s.writers[r.value.run].received, r.value.run))
  }

  /** Acknowledged statements are in the tables. */
  ghost predicate WriterSound(t: EventTables, w: Writer, run: nat) {
    && w.done <= |w.plan| && PlanFits(w, run)
    && (forall k: Kind :: Carried(w.plan, w.done, k) <= Keys(t.Of(k)))
  }

  /** A finished run's numbers are the rows stamped with it, then and ever after. */
  ghost predicate FinishSound(t: EventTables, w: Writer, run: nat) {
    w.phase.Finished? ==>
      && w.done == |w.plan| && w.whole
      && w.phase.committed == CountForRun(t.normalized, run)
      && w.phase.quarantined == CountForRun(t.quarantine, run)
      && w.phase.duplicates == |w.received| - w.phase.committed - w.phase.quarantined
  }

  ghost predicate Inv(s: State) {
    && TablesSound(s.tables) && RowsExplained(s)
    && forall w: nat :: w < |s.writers| ==>
         WriterSound(s.tables, s.writers[w], w) && FinishSound(s.tables, s.writers[w], w)
  }

  /** What sending the current statement of a sound writer does to the tables. */
  lemma SendKeeps(t: EventTables, writer: Writer, run: nat)
    requires TablesSound(t) && WriterSound(t, writer, run) && writer.done < |writer.plan|
    ensures var st := writer.plan[writer.done];
            var t' := Send(t, st);
            && TablesSound(t') && Grows(t, t')
            && (forall k: Kind :: Keys(t.Of(k)) <= Keys(t'.Of(k)))
            && Keys(st.batch) <= Keys(t'.Of(st.kind))
            && (forall k: Kind, r :: r in t'.Of(k) ==> r in t.Of(k) || (k == st.kind && r in st.batch))
            && (forall r :: r in st.batch ==> r in RowsFor(st.kind, Items(writer.received, run)))
  {
    hide Merge, Unique, Items, Parsed, Carried, Keys;
    var st := writer.plan[writer.done];
    MergeKeys(t.Of(st.kind), st.batch);
    MergeUnique(t.Of(st.kind), st.batch);
    assert t.raw == t.Of(Raw) && t.normalized == t.Of(Normalized) && t.quarantine == t.Of(Quarantine);
    if st.kind != Raw {
      var items := Items(writer.received, run);
      ItemsOwned(writer.received, run);
      RowsForOwned(st.kind, items, run);
      KeysWithin(st.batch, items);
    }
  }

  /** Writers and finished counts survive when the tables grow by rows of another run. */
  lemma OtherWriterKept(t: EventTables, st: Statement, w: Writer, run: nat, other: nat)
    requires WriterSound(t, w, run) && FinishSound(t, w, run) && run != other
    requires forall k: Kind :: Keys(t.Of(k)) <= Keys(Send(t, st).Of(k))
    requires forall r :: r in st.batch ==> r.value.run == other
    ensures WriterSound(Send(t, st), w, run) && FinishSound(Send(t, st), w, run)
  {
    hide Merge, Items, Parsed, Carried, Keys, CountForRun, PlanFits;
    MergeOfAnother(t.Of(st.kind), st.batch, run);
  }

  lemma BatchStamped(writer: Writer, run: nat, st: Statement)
    requires forall r :: r in st.batch ==> r in RowsFor(st.kind, Items(writer.received, run))
    ensures forall r :: r in st.batch ==> r.value.run == run
  {
    hide Items, Parsed;
    ItemsOwned(writer.received, run);
    RowsForOwned(st.kind, Items(writer.received, run), run);
  }

  lemma RowsStayExplained(s: State, w: nat, t': EventTables, writers': seq<Writer>)
    requires w < |s.writers| && RowsExplained(s) && |s.writers| <= |writers'|
    requires forall i :: 0 <= i < |s.writers| ==> writers'[i].received == s.writers[i].received
    requires forall k: Kind, r :: r in t'.Of(k) ==>
               r in s.tables.Of(k) || (r.value.run == w && r in RowsFor(k, Items(s.writers[w].received, w)))
    ensures RowsExplained(State(t', writers'))
  {
    hide Items, Parsed;
  }

  lemma StartKeeps(s: State, received: seq<Event>, cfg: Config)
    requires Inv(s) && cfg.Valid()
    ensures Inv(State(s.tables, s.writers + [NewWriter(received, |s.writers|, cfg)]))
  {
    hide Unique, Items, Parsed, PlanFits, Plan, CountForRun, FinishSound, Keys;
    var run := |s.writers|;
    var added := NewWriter(received, run, cfg);
    NewWriterFits(received, run, cfg);
    assert WriterSound(s.tables, added, run) by {
      assert forall k: Kind :: Carried(added.plan, 0, k) == {};
    }
    assert FinishSound(s.tables, added, run) by { NotFinished(s.tables, added, run); }
    var more := s.writers + [added];
    assert forall i :: 0 <= i < run ==> more[i] == s.writers[i];
  }

  lemma NotFinished(t: EventTables, w: Writer, run: nat)
    requires !w.phase.Finished?
    ensures FinishSound(t, w, run)
  {
  }

  /** The current statement takes effect, acknowledged or not. */
  lemma LandKeeps(s: State, w: nat, ack: bool)
    requires Inv(s) && w < |s.writers| && s.writers[w].done < |s.writers[w].plan|
    ensures var writer := s.writers[w];
            var t' := Send(s.tables, writer.plan[writer.done]);
            Inv(State(t', if ack then s.writers[w := writer.(done := writer.done + 1)] else s.writers))
              && Grows(s.tables, t')
  {
    hide Unique, Items, Parsed, PlanFits, Carried, Keys, CountForRun, FinishSound, RowsExplained, TablesSound, Merge,
      Grows;
    var writer := s.writers[w];
    var st := writer.plan[writer.done];
    var t' := Send(s.tables, st);
    var writer' := if ack then writer.(done := writer.done + 1) else writer;
    var writers' := s.writers[w := writer'];
    SendKeeps(s.tables, writer, w);
    BatchStamped(writer, w, st);
    LandedWriter(s.tables, writer, w, ack);
    RowsStayExplained(s, w, t', writers');
    forall i: nat | i < |writers'| ensures WriterSound(t', writers'[i], i) && FinishSound(t', writers'[i], i) {
      if i != w { OtherWriterKept(s.tables, st, s.writers[i], i, w); }
    }
    assert s.writers[w := writer] == s.writers;
  }

  lemma LandedWriter(t: EventTables, writer: Writer, run: nat, ack: bool)
    requires WriterSound(t, writer, run) && FinishSound(t, writer, run) && writer.done < |writer.plan|
    requires var st := writer.plan[writer.done];
             var t' := Send(t, st);
             && (forall k: Kind :: Keys(t.Of(k)) <= Keys(t'.Of(k))) && Keys(st.batch) <= Keys(t'.Of(st.kind))
    ensures var t' := Send(t, writer.plan[writer.done]);
            var writer' := if ack then writer.(done := writer.done + 1) else writer;
            WriterSound(t', writer', run) && FinishSound(t', writer', run)
  {
    hide Items, Parsed, Keys, CountForRun, Merge;
    var st := writer.plan[writer.done];
    assert PlanFits(writer.(done := writer.done + 1), run);
    hide PlanFits;
    if ack {
      forall k: Kind ensures Carried(writer.plan, writer.done + 1, k) <= Keys(Send(t, st).Of(k)) {
        CarriedNext(writer.plan, writer.done, k);
      }
    }
  }

  lemma CarriedNext(plan: seq<Statement>, n: nat, k: Kind)
    requires n < |plan|
    ensures Carried(plan, n + 1, k) == Carried(plan, n, k) + (if plan[n].kind == k then Keys(plan[n].batch) else {})
  {
    var front := plan[..n];
    CarriedSnoc(front, plan[n], k);
    assert plan[..n + 1] == front + [plan[n]];
    CarriedOfPrefix(plan, n, k);
    CarriedOfPrefix(plan, n + 1, k);
  }

  lemma CarriedOfPrefix(plan: seq<Statement>, n: nat, k: Kind)
    requires n <= |plan|
    ensures Carried(plan, n, k) == Carried(plan[..n], n, k)
  {
    CarriedPrefix(plan[..n], plan, n, n, k);
    forall id | id in Carried(plan, n, k) ensures id in Carried(plan[..n], n, k) {
      var i, r :| 0 <= i < n && plan[i].kind == k && r in plan[i].batch && r.key == id;
      assert plan[..n][i] == plan[i];
    }
  }

  lemma FinishKeeps(s: State, w: nat, cfg: Config)
    requires Inv(s) && Enabled(s, Finish(w))
    ensures Inv(Next(s, Finish(w), cfg))
  {
    hide Unique, Items, Parsed, PlanFits, Carried, Keys, CountForRun, TablesSound, Merge;
    var s' := Next(s, Finish(w), cfg);
    assert PlanFits(s'.writers[w], w) by { SamePlan(s.writers[w], s'.writers[w], w); }
    assert forall i :: 0 <= i < |s.writers| && i != w ==> s'.writers[i] == s.writers[i];
    assert forall i :: 0 <= i < |s.writers| ==> s'.writers[i].received == s.writers[i].received;
  }

  lemma SamePlan(a: Writer, b: Writer, run: nat)
    requires PlanFits(a, run) && a.received == b.received && a.plan == b.plan && a.whole == b.whole
    ensures PlanFits(b, run)
  {
    hide Items, Parsed, Carried, Keys, Unique;
  }

  lemma DieKeeps(s: State, w: nat, cfg: Config)
    requires Inv(s) && Enabled(s, Die(w))
    ensures Inv(Next(s, Die(w), cfg))
  {
    hide Unique, Items, Parsed, PlanFits, Carried, Keys, CountForRun, TablesSound, Merge;
    var s' := Next(s, Die(w), cfg);
    assert PlanFits(s'.writers[w], w) by { SamePlan(s.writers[w], s'.writers[w], w); }
    assert forall i :: 0 <= i < |s.writers| && i != w ==> s'.writers[i] == s.writers[i];
    assert forall i :: 0 <= i < |s.writers| ==> s'.writers[i].received == s.writers[i].received;
  }

  /** Every step of every writer keeps the invariant and leaves stored rows as they are. */
  lemma StepKeeps(s: State, step: Step, cfg: Config)
    requires Inv(s) && cfg.Valid() && Enabled(s, step)
    ensures Inv(Next(s, step, cfg)) && Grows(s.tables, Next(s, step, cfg).tables)
  {
    hide Inv, Grows, NewWriter;
    GrowsReflexive(s.tables);
    match step
    case Start(received) => StartKeeps(s, received, cfg);
    case Land(w) => LandKeeps(s, w, false);
    case Advance(w) => LandKeeps(s, w, true);
    case Die(w) => DieKeeps(s, w, cfg);
    case Finish(w) => FinishKeeps(s, w, cfg);
  }

  /** Run w after its first n statements were acknowledged, starting from none. */
  function Advanced(s: State, w: nat, n: nat): State
    requires w < |s.writers| && n <= |s.writers[w].plan|
  {
    var writer := s.writers[w];
    State(SendAll(s.tables, writer.plan[..n]), s.writers[w := writer.(done := n)])
  }

  lemma AdvancedStep(s: State, w: nat, n: nat, cfg: Config)
    requires w < |s.writers| && n < |s.writers[w].plan| && s.writers[w].phase == Working
    ensures Enabled(Advanced(s, w, n), Advance(w))
    ensures Next(Advanced(s, w, n), Advance(w), cfg) == Advanced(s, w, n + 1)
  {
    hide SendAll, Plans.Send;
    SendAllSnoc(s.tables, s.writers[w].plan, n);
  }

  // ---------------------------------------------------------------- whole runs

  /** `to` can be reached by the given interleaving of steps. */
  ghost predicate Leads(from: State, steps: seq<Step>, to: State, cfg: Config)
    decreases |steps|
  {
    if steps == [] then from == to
    else Enabled(from, steps[0]) && Leads(Next(from, steps[0], cfg), steps[1..], to, cfg)
  }

  /** Safety over every interleaving: one row per id, raw first, rows never altered. */
  lemma {:induction false} RunsAreSafe(from: State, steps: seq<Step>, to: State, cfg: Config)
    requires Inv(from) && cfg.Valid() && Leads(from, steps, to, cfg)
    ensures Inv(to) && Grows(from.tables, to.tables)
    decreases |steps|
  {
    hide Inv, Grows;
    if steps == [] {
      GrowsReflexive(from.tables);
    } else {
      var mid := Next(from, steps[0], cfg);
      StepKeeps(from, steps[0], cfg);
      RunsAreSafe(mid, steps[1..], to, cfg);
      GrowsTransitive(from.tables, mid.tables, to.tables);
    }
  }

  lemma GrowsTransitive(a: EventTables, b: EventTables, c: EventTables)
    requires Grows(a, b) && Grows(b, c)
    ensures Grows(a, c)
  {
  }

  const INITIAL := State(EventTables([], [], []), [])

  lemma InitialSound()
    ensures Inv(INITIAL)
  {
  }
}
