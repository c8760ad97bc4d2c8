/** The three authentication rules: what each event fires, and the incremental evaluation. */
module Rules {
  import opened Prelude
  import opened AuthEvents
  import opened Windows

  datatype Settings = Settings(
    windowSeconds: int,
    failureThreshold: int,
    sprayThreshold: int,
    lookbackSeconds: int,
    intervalSeconds: int,
    maxEvents: int,
    evidenceLimit: int)
  {
    /** Settings that DetectionSettings accepts. */
    predicate Valid() {
      && windowSeconds > 0 && intervalSeconds > 0 && maxEvents > 0
      && failureThreshold >= 2 && sprayThreshold >= 2 && evidenceLimit >= 2
      && lookbackSeconds >= windowSeconds && lookbackSeconds >= intervalSeconds
    }

    function Window(): int { windowSeconds * MICROS }
  }

  datatype SettingsError = NotPositive(field: nat) | ThresholdBelowTwo | LookbackTooShort | EvidenceBelowTwo

  /** DetectionSettings.__post_init__: the first complaint, or none exactly for valid settings. */
  method Complaint(s: Settings) returns (r: Option<SettingsError>)
    ensures r == None <==> s.Valid()
  {
    var fields := [s.windowSeconds, s.failureThreshold, s.sprayThreshold, s.lookbackSeconds, s.intervalSeconds,
                   s.maxEvents, s.evidenceLimit];
    for i := 0 to |fields|
      invariant forall j :: 0 <= j < i ==> fields[j] > 0
    {
      if fields[i] <= 0 { return Some(NotPositive(i)); }
    }
    assert fields[0] > 0 && fields[1] > 0 && fields[2] > 0 && fields[3] > 0 && fields[4] > 0 && fields[5] > 0;
    if s.failureThreshold < 2 || s.sprayThreshold < 2 { return Some(ThresholdBelowTwo); }
    if s.lookbackSeconds < s.windowSeconds || s.lookbackSeconds < s.intervalSeconds { return Some(LookbackTooShort); }
    if s.evidenceLimit < 2 { return Some(EvidenceBelowTwo); }
    return None;
  }

  const MICROS := 1_000_000

  datatype Rule = RepeatedFailures | PasswordSpray | SuccessAfterFailures

  /** The hashed identity of a finding; SHA-256 over its JSON text is taken to be injective. */
  datatype FindingId = FindingId(
    rule: Rule, windowSeconds: int, threshold: int, scope: Scope, subject: string, bucket: int)

  datatype Finding = Finding(
    id: FindingId,
    firstSeen: int,
    lastSeen: int,
    count: nat,
    evidenceIds: seq<string>,
    distinctUsers: Option<nat>,
    truncated: bool)

  datatype Error = BadRange | TooManyEvents

  /** int(seconds) truncates toward zero; // floors. */
  function Bucket(ts: int, windowSeconds: int): int
    requires windowSeconds > 0
  {
    (if ts >= 0 then ts / MICROS else -(-ts / MICROS)) / windowSeconds
  }

  function IdOf(rule: Rule, trigger: AuthEvent, cfg: Settings): FindingId
    requires cfg.Valid()
  {
    var spray := rule == PasswordSpray;
    FindingId(rule, cfg.windowSeconds, if spray then cfg.sprayThreshold else cfg.failureThreshold,
              trigger.scope, if spray then "" else trigger.user, Bucket(trigger.ts, cfg.windowSeconds))
  }

  function UsersOf(s: seq<AuthEvent>): set<string> {
    set e | e in s :: e.user
  }

  /** The first event of every user, in order. */
  function Representatives(s: seq<AuthEvent>): seq<AuthEvent> {
    if s == [] then []
    else
      var n := |s| - 1;
      var reps := Representatives(s[..n]);
      if s[n].user in UsersOf(reps) then reps else reps + [s[n]]
  }

  function Take<T>(s: seq<T>, n: nat): seq<T> {
    if n <= |s| then s[..n] else s
  }

  function Min(a: int, b: int): int {
    if a <= b then a else b
  }

  function EventIds(s: seq<AuthEvent>): seq<string> {
    if s == [] then [] else EventIds(s[..|s| - 1]) + [s[|s| - 1].id]
  }

  /** The events a finding names as evidence. */
  function Sample(rule: Rule, trigger: AuthEvent, evidence: seq<AuthEvent>, count: nat, cfg: Settings): seq<AuthEvent>
    requires cfg.Valid() && count > 0
  {
    var picked :=
      if rule == PasswordSpray then Take(Representatives(evidence), cfg.evidenceLimit - 1)
      else Take(evidence, Min(cfg.evidenceLimit - 1, count - (if trigger.status == SUCCESS then 1 else 0)));
    if trigger in picked then picked else picked + [trigger]
  }

  function Emission(rule: Rule, trigger: AuthEvent, evidence: seq<AuthEvent>, count: nat, cfg: Settings): Finding
    requires cfg.Valid() && evidence != [] && count > 0
  {
    var sample := Sample(rule, trigger, evidence, count, cfg);
    Finding(IdOf(rule, trigger, cfg), evidence[0].ts, trigger.ts, count, EventIds(sample),
            if rule == PasswordSpray then Some(|Representatives(evidence)|) else None, count > |sample|)
  }

  /** The number of events strictly before t. */
  function EarlierThan(s: seq<AuthEvent>, t: int): (n: nat)
    ensures n <= |s|
  {
    if s == [] then 0
    else EarlierThan(s[..|s| - 1], t) + (if s[|s| - 1].ts < t then 1 else 0)
  }

  /** What a failure e fires, given the windows of its pair and its scope, e included. */
  function OnFailure(e: AuthEvent, mine: seq<AuthEvent>, all: seq<AuthEvent>, cfg: Settings): seq<Finding>
    requires cfg.Valid() && mine != [] && all != []
  {
    (if |mine| >= cfg.failureThreshold then [Emission(RepeatedFailures, e, mine, |mine|, cfg)] else [])
    + (if |UsersOf(all)| >= cfg.sprayThreshold then [Emission(PasswordSpray, e, all, |all|, cfg)] else [])
  }

  /** What a success e fires, given the failure window of its pair. */
  function OnSuccess(e: AuthEvent, own: seq<AuthEvent>, cfg: Settings): seq<Finding>
    requires cfg.Valid()
  {
    var earlier := EarlierThan(own, e.ts);
    if earlier >= cfg.failureThreshold then
      [Emission(SuccessAfterFailures, e, own, earlier + 1, cfg)]
    else []
  }

  /**
   * What event e fires when the events of `past` came before it: every window is
   * recomputed from the whole past.
   */
  function Fires(past: seq<AuthEvent>, e: AuthEvent, cfg: Settings): seq<Finding>
    requires cfg.Valid()
  {
    var cutoff := e.ts - cfg.Window();
    var own := Failures(past, Pair(e.scope, e.user), cutoff);
    if e.status == FAILURE then
      OnFailure(e, own + [e], Failures(past, Source(e.scope), cutoff) + [e], cfg)
    else
      OnSuccess(e, own, cfg)
  }

  ghost function Ids(fs: seq<Finding>): set<FindingId> {
    set f | f in fs :: f.id
  }

  /** A finding whose id is already present is suppressed. */
  ghost function Add(fs: seq<Finding>, f: Finding): seq<Finding> {
    if f.id in Ids(fs) then fs else fs + [f]
  }

  ghost function AddAll(fs: seq<Finding>, more: seq<Finding>): seq<Finding>
    decreases |more|
  {
    if more == [] then fs else AddAll(Add(fs, more[0]), more[1..])
  }

  /** The findings of a run over s that may only emit from `start` on. */
  ghost function Findings(s: seq<AuthEvent>, start: int, cfg: Settings): seq<Finding>
    requires cfg.Valid()
  {
    if s == [] then []
    else
      var n := |s| - 1;
      AddAll(Findings(s[..n], start, cfg), if start <= s[n].ts then Fires(s[..n], s[n], cfg) else [])
  }

  /** The events of s with lo <= ts < hi. */
  function Slice(s: seq<AuthEvent>, lo: int, hi: int): seq<AuthEvent> {
    if s == [] then []
    else
      var n := |s| - 1;
      Slice(s[..n], lo, hi) + (if lo <= s[n].ts < hi then [s[n]] else [])
  }

  /** The specification of evaluate on accepted input. */
  ghost function Detections(events: seq<AuthEvent>, start: int, end: int, cfg: Settings): seq<Finding>
    requires cfg.Valid()
  {
    Findings(Slice(Canonical(events), start - cfg.Window(), end), start, cfg)
  }

  // ---------------------------------------------------------------- supporting facts

  lemma {:induction false} SliceElements(s: seq<AuthEvent>, lo: int, hi: int)
    ensures forall e :: e in Slice(s, lo, hi) <==> e in s && lo <= e.ts < hi
  {
    if s != [] {
      var n := |s| - 1;
      SliceElements(s[..n], lo, hi);
      assert s == s[..n] + [s[n]];
    }
  }

  lemma {:induction false} SliceOrdered(s: seq<AuthEvent>, lo: int, hi: int)
    requires Sorted(s) && Identified(s)
    ensures Sorted(Slice(s, lo, hi)) && Identified(Slice(s, lo, hi))
  {
    hide Before, Sorted, Identified;
    if s == [] {
      NothingSorted();
    } else {
      var n := |s| - 1;
      assert s == s[..n] + [s[n]];
      SortedFront(s[..n], s[n]);
      SliceOrdered(s[..n], lo, hi);
      SliceElements(s[..n], lo, hi);
      var front := Slice(s[..n], lo, hi);
      SortedSnoc(front, s[n]);
      assert front + [] == front;
    }
  }

  lemma {:induction false} SliceInTime(s: seq<AuthEvent>, lo: int, hi: int)
    requires InTime(s)
    ensures InTime(Slice(s, lo, hi))
    ensures forall e :: e in Slice(s, lo, hi) ==> e in s
  {
    if s != [] {
      var n := |s| - 1;
      SliceInTime(s[..n], lo, hi);
      assert forall e :: e in s[..n] ==> e.ts <= s[n].ts;
    }
  }

  lemma {:induction false} EarlierByTally(s: seq<AuthEvent>, t: int)
    requires forall e :: e in s ==> e.ts <= t
    ensures Tally(s, TimeOf)[t] + EarlierThan(s, t) == |s|
  {
    if s != [] {
      EarlierByTally(s[..|s| - 1], t);
    }
  }

  lemma {:induction false} RepresentativeUsers(s: seq<AuthEvent>)
    ensures UsersOf(Representatives(s)) == UsersOf(s)
    ensures |Representatives(s)| == |UsersOf(s)|
  {
    if s != [] {
      var n := |s| - 1;
      RepresentativeUsers(s[..n]);
      assert s == s[..n] + [s[n]];
      assert UsersOf(s) == UsersOf(s[..n]) + {s[n].user};
      var reps := Representatives(s[..n]);
      assert UsersOf(reps + [s[n]]) == UsersOf(reps) + {s[n].user};
    }
  }

  lemma DistinctByCounter(counter: map<string, nat>, s: seq<AuthEvent>)
    requires Counts(counter, Tally(s, UserOf))
    ensures |counter| == |UsersOf(s)|
  {
    forall u ensures u in counter <==> u in UsersOf(s) { TallyMember(s, UserOf, u); }
    assert counter.Keys == UsersOf(s);
  }

  // ---------------------------------------------------------------- the incremental evaluation

  function Deque(deques: map<Subject, seq<AuthEvent>>, k: Subject): seq<AuthEvent> {
    if k in deques then deques[k] else []
  }

  function CounterOf<K>(counters: map<Subject, map<K, nat>>, k: Subject): map<K, nat> {
    if k in counters then counters[k] else map[]
  }

  ghost function Cut(cuts: map<Subject, int>, k: Subject, floor: int): int {
    if k in cuts then cuts[k] else floor
  }

  /** A deque holds the failures of k since its last eviction, and its Counter exactly their keys. */
  ghost predicate Holds<K(!new)>(deque: seq<AuthEvent>, counter: map<K, nat>, key: AuthEvent -> K,
                                 past: seq<AuthEvent>, k: Subject, cut: int)
  {
    deque == Failures(past, k, cut) && Counts(counter, Tally(deque, key))
  }

  /** Every subject of one kind is held, and no eviction went past `horizon`. */
  ghost predicate Tracks<K(!new)>(pairwise: bool, deques: map<Subject, seq<AuthEvent>>,
                                  counters: map<Subject, map<K, nat>>, key: AuthEvent -> K, cuts: map<Subject, int>,
                                  floor: int, horizon: int, past: seq<AuthEvent>)
  {
    forall k: Subject :: k.Pair? == pairwise ==>
      && Holds(Deque(deques, k), CounterOf(counters, k), key, past, k, Cut(cuts, k, floor))
      && Cut(cuts, k, floor) <= horizon
  }

  lemma NothingTracked<K(!new)>(pairwise: bool, key: AuthEvent -> K, floor: int)
    ensures Tracks(pairwise, map[], map[], key, map[], floor, floor, [])
  {
  }

  lemma FailuresSnoc(past: seq<AuthEvent>, e: AuthEvent, k: Subject, cutoff: int)
    ensures Failures(past + [e], k, cutoff) ==
            if IsFailure(k, e) && cutoff <= e.ts then Failures(past, k, cutoff) + [e] else Failures(past, k, cutoff)
  {
    assert (past + [e])[..|past|] == past;
  }

  // ---------------------------------------------------------------- the work of the windows

  function FailureCount(s: seq<AuthEvent>): nat {
    if s == [] then 0
    else FailureCount(s[..|s| - 1]) + if s[|s| - 1].status == FAILURE then 1 else 0
  }

  lemma FailureCountSnoc(s: seq<AuthEvent>, e: AuthEvent)
    ensures FailureCount(s + [e]) == FailureCount(s) + if e.status == FAILURE then 1 else 0
  {
    assert (s + [e])[..|s|] == s;
  }

  /** The window that an event belongs to. */
  function Owner(pairwise: bool, e: AuthEvent): Subject {
    if pairwise then Pair(e.scope, e.user) else Source(e.scope)
  }

  ghost predicate IsHeld(pairwise: bool, e: AuthEvent, cuts: map<Subject, int>, floor: int) {
    e.status == FAILURE && Cut(cuts, Owner(pairwise, e), floor) <= e.ts
  }

  /** How many failures all deques of one kind hold together. */
  ghost function Held(pairwise: bool, past: seq<AuthEvent>, cuts: map<Subject, int>, floor: int): (n: nat)
    ensures n <= FailureCount(past)
  {
    if past == [] then 0
    else
      var n := |past| - 1;
      Held(pairwise, past[..n], cuts, floor) + if IsHeld(pairwise, past[n], cuts, floor) then 1 else 0
  }

  lemma HeldSnoc(pairwise: bool, past: seq<AuthEvent>, e: AuthEvent, cuts: map<Subject, int>, floor: int)
    ensures Held(pairwise, past + [e], cuts, floor)
         == Held(pairwise, past, cuts, floor) + if IsHeld(pairwise, e, cuts, floor) then 1 else 0
  {
    assert (past + [e])[..|past|] == past;
  }

  /** Evicting one subject takes its own pops off the total, and nothing else. */
  lemma {:induction false} HeldAfterEviction(past: seq<AuthEvent>, k: Subject, cutoff: int, cuts: map<Subject, int>,
                                             floor: int)
    requires Cut(cuts, k, floor) <= cutoff
    ensures Held(k.Pair?, past, cuts[k := cutoff], floor) + |Failures(past, k, Cut(cuts, k, floor))|
         == Held(k.Pair?, past, cuts, floor) + |Failures(past, k, cutoff)|
  {
    if past != [] {
      var n := |past| - 1;
      HeldAfterEviction(past[..n], k, cutoff, cuts, floor);
      assert IsFailure(k, past[n]) <==> past[n].status == FAILURE && Owner(k.Pair?, past[n]) == k;
    }
  }

  /** Evict one deque, then append e when it is a failure. */
  method Refresh<K(!new, ==)>(deque: seq<AuthEvent>, counter: map<K, nat>, key: AuthEvent -> K, k: Subject,
                              e: AuthEvent, cutoff: int, ghost cut: int, ghost past: seq<AuthEvent>)
      returns (deque': seq<AuthEvent>, counter': map<K, nat>, ghost pops: nat, ghost appends: nat)
    requires About(k, e) && InTime(past) && cut <= cutoff <= e.ts
    requires Holds(deque, counter, key, past, k, cut)
    ensures deque' == (if e.status == FAILURE then Failures(past, k, cutoff) + [e] else Failures(past, k, cutoff))
    ensures Holds(deque', counter', key, past + [e], k, cutoff)
    ensures pops + |Failures(past, k, cutoff)| == |deque| && pops + |deque'| == |deque| + appends
  {
    EvictionIsWindow(past, k, cut, cutoff);
    FailuresSnoc(past, e, k, cutoff);
    deque', counter', pops := Evict(deque, counter, key, cutoff);
    appends := 0;
    if e.status == FAILURE {
      deque', counter' := Push(deque', counter', key, e);
      appends := appends + 1;
    }
  }

  lemma HoldsFailures<K(!new)>(deque: seq<AuthEvent>, counter: map<K, nat>, key: AuthEvent -> K,
                               past: seq<AuthEvent>, k: Subject, cut: int)
    requires Holds(deque, counter, key, past, k, cut)
    ensures deque == Failures(past, k, cut)
  {
  }

  lemma OthersKept<K(!new)>(deque: seq<AuthEvent>, counter: map<K, nat>, key: AuthEvent -> K, past: seq<AuthEvent>,
                            e: AuthEvent, j: Subject, cut: int)
    requires Holds(deque, counter, key, past, j, cut) && !About(j, e)
    ensures Holds(deque, counter, key, past + [e], j, cut)
  {
    FailuresSnoc(past, e, j, cut);
  }

  lemma TracksOne<K(!new)>(deques: map<Subject, seq<AuthEvent>>, counters: map<Subject, map<K, nat>>,
                           key: AuthEvent -> K, cuts: map<Subject, int>, floor: int, horizon: int,
                           past: seq<AuthEvent>, k: Subject)
    requires Tracks(k.Pair?, deques, counters, key, cuts, floor, horizon, past)
    ensures Holds(Deque(deques, k), CounterOf(counters, k), key, past, k, Cut(cuts, k, floor))
            && Cut(cuts, k, floor) <= horizon
  {
    hide Holds;
  }

  lemma TracksNext<K(!new)>(deques: map<Subject, seq<AuthEvent>>, counters: map<Subject, map<K, nat>>,
                            key: AuthEvent -> K, cuts: map<Subject, int>, floor: int, horizon: int,
                            past: seq<AuthEvent>, k: Subject, e: AuthEvent, deque: seq<AuthEvent>,
                            counter: map<K, nat>, cutoff: int)
    requires Tracks(k.Pair?, deques, counters, key, cuts, floor, horizon, past) && horizon <= cutoff && About(k, e)
    requires Holds(deque, counter, key, past + [e], k, cutoff)
    ensures Tracks(k.Pair?, deques[k := deque], counters[k := counter], key, cuts[k := cutoff], floor, cutoff,
                   past + [e])
  {
    hide Holds;
    forall j: Subject | j.Pair? == k.Pair? && j != k
      ensures Holds(Deque(deques[k := deque], j), CounterOf(counters[k := counter], j), key, past + [e], j,
                    Cut(cuts[k := cutoff], j, floor))
    {
      OthersKept(Deque(deques, j), CounterOf(counters, j), key, past, e, j, Cut(cuts, j, floor));
    }
  }

  /**
   * Read and update the window of subject k in its dictionary of windows. Whatever lazy eviction left
   * behind, the deque read afterwards is the window recomputed from the whole past.
   */
  method Slide<K(!new, ==)>(deques: map<Subject, seq<AuthEvent>>, counters: map<Subject, map<K, nat>>,
                            key: AuthEvent -> K, k: Subject, e: AuthEvent, cutoff: int,
                            ghost cuts: map<Subject, int>, ghost floor: int, ghost horizon: int,
                            ghost past: seq<AuthEvent>)
      returns (deque: seq<AuthEvent>, counter: map<K, nat>,
               deques': map<Subject, seq<AuthEvent>>, counters': map<Subject, map<K, nat>>,
               ghost cuts': map<Subject, int>, ghost pops: nat, ghost appends: nat)
    requires About(k, e) && InTime(past) && horizon <= cutoff <= e.ts
    requires Tracks(k.Pair?, deques, counters, key, cuts, floor, horizon, past)
    ensures deque == (if e.status == FAILURE then Failures(past, k, cutoff) + [e] else Failures(past, k, cutoff))
    ensures Holds(deque, counter, key, past + [e], k, cutoff)
    ensures Tracks(k.Pair?, deques', counters', key, cuts', floor, cutoff, past + [e])
    ensures pops + Held(k.Pair?, past + [e], cuts', floor) == Held(k.Pair?, past, cuts, floor) + appends
    ensures appends == if e.status == FAILURE then 1 else 0
  {
    hide Holds, Failures, Held, Tracks, InTime;
    TracksOne(deques, counters, key, cuts, floor, horizon, past, k);
    HoldsFailures(Deque(deques, k), CounterOf(counters, k), key, past, k, Cut(cuts, k, floor));
    HeldAfterEviction(past, k, cutoff, cuts, floor);
    HeldSnoc(k.Pair?, past, e, cuts[k := cutoff], floor);
    assert Owner(k.Pair?, e) == k;
    deque, counter, pops, appends := Refresh(Deque(deques, k), CounterOf(counters, k), key, k, e, cutoff,
                                             Cut(cuts, k, floor), past);
    deques' := deques[k := deque];
    counters' := counters[k := counter];
    cuts' := cuts[k := cutoff];
    TracksNext(deques, counters, key, cuts, floor, horizon, past, k, e, deque, counter, cutoff);
  }

  /** The first event of each user, in insertion order: the `representatives` dictionary. */
  method FirstPerUser(evidence: seq<AuthEvent>) returns (representatives: seq<AuthEvent>)
    ensures representatives == Representatives(evidence)
  {
    representatives := [];
    var users := {};
    for i := 0 to |evidence|
      invariant representatives == Representatives(evidence[..i])
      invariant users == UsersOf(representatives)
    {
      assert evidence[..i + 1][..i] == evidence[..i];
      if evidence[i].user !in users {
        users := users + {evidence[i].user};
        representatives := representatives + [evidence[i]];
      }
    }
    assert evidence[..|evidence|] == evidence;
  }

  /** The inner `emit`: suppress a known id, otherwise sample the evidence and record the finding. */
  method Emit(findings: seq<Finding>, known: set<FindingId>, rule: Rule, trigger: AuthEvent, evidence: seq<AuthEvent>,
              count: nat, cfg: Settings)
      returns (findings': seq<Finding>, known': set<FindingId>)
    requires cfg.Valid() && evidence != [] && count > 0
    requires known == Ids(findings)
    ensures findings' == Add(findings, Emission(rule, trigger, evidence, count, cfg))
    ensures known' == Ids(findings')
  {
    hide Representatives, EventIds;
    findings', known' := findings, known;
    var id := IdOf(rule, trigger, cfg);
    if id in known {
      return;
    }
    var sample, distinct := [], None;
    if rule == PasswordSpray {
      sample := FirstPerUser(evidence);
      distinct := Some(|sample|);
      sample := Take(sample, cfg.evidenceLimit - 1);
    } else {
      sample := Take(evidence, Min(cfg.evidenceLimit - 1, count - (if trigger.status == SUCCESS then 1 else 0)));
    }
    if trigger !in sample {
      sample := sample + [trigger];
    }
    var finding := Finding(id, evidence[0].ts, trigger.ts, count, EventIds(sample), distinct, count > |sample|);
    findings' := findings + [finding];
    known' := known + {id};
  }

  lemma AddAllPair(fs: seq<Finding>, a: seq<Finding>, b: seq<Finding>)
    requires |a| <= 1 && |b| <= 1
    ensures AddAll(fs, a + b) == AddAll(AddAll(fs, a), b)
    ensures a != [] ==> AddAll(fs, a) == Add(fs, a[0])
  {
    if a == [] {
      assert a + b == b;
    } else {
      assert a[1..] == [] && (a + b)[1..] == b;
    }
  }

  /** The two checks made for a failure. */
  method JudgeFailure(findings: seq<Finding>, known: set<FindingId>, event: AuthEvent, previous: seq<AuthEvent>,
                      all: seq<AuthEvent>, distinct: map<string, nat>, cfg: Settings)
      returns (findings': seq<Finding>, known': set<FindingId>)
    requires cfg.Valid() && known == Ids(findings) && previous != [] && all != []
    requires Counts(distinct, Tally(all, UserOf))
    ensures findings' == AddAll(findings, OnFailure(event, previous, all, cfg)) && known' == Ids(findings')
  {
    hide Emission, UsersOf;
    findings', known' := findings, known;
    DistinctByCounter(distinct, all);
    ghost var repeated, spray := [], [];
    if |previous| >= cfg.failureThreshold {
      findings', known' := Emit(findings', known', RepeatedFailures, event, previous, |previous|, cfg);
      repeated := [Emission(RepeatedFailures, event, previous, |previous|, cfg)];
    }
    AddAllPair(findings, repeated, []);
    ghost var between := findings';
    if |distinct| >= cfg.sprayThreshold {
      findings', known' := Emit(findings', known', PasswordSpray, event, all, |all|, cfg);
      spray := [Emission(PasswordSpray, event, all, |all|, cfg)];
    }
    AddAllPair(between, spray, []);
    AddAllPair(findings, repeated, spray);
  }

  /** The check made for a success: failures at its own timestamp do not count as earlier. */
  method JudgeSuccess(findings: seq<Finding>, known: set<FindingId>, event: AuthEvent, previous: seq<AuthEvent>,
                      times: map<int, nat>, cfg: Settings)
      returns (findings': seq<Finding>, known': set<FindingId>)
    requires cfg.Valid() && known == Ids(findings)
    requires forall x :: x in previous ==> x.ts <= event.ts
    requires Counts(times, Tally(previous, TimeOf))
    ensures findings' == AddAll(findings, OnSuccess(event, previous, cfg)) && known' == Ids(findings')
  {
    hide Emission, EarlierThan;
    findings', known' := findings, known;
    EarlierByTally(previous, event.ts);
    var earlier := |previous| - Count(times, event.ts);
    if earlier >= cfg.failureThreshold {
      findings', known' := Emit(findings', known', SuccessAfterFailures, event, previous, earlier + 1, cfg);
      AddAllPair(findings, [Emission(SuccessAfterFailures, event, previous, earlier + 1, cfg)], []);
    }
  }

  lemma FindingsQuiet(past: seq<AuthEvent>, e: AuthEvent, start: int, cfg: Settings)
    requires cfg.Valid() && e.ts < start
    ensures Findings(past + [e], start, cfg) == Findings(past, start, cfg)
  {
    assert (past + [e])[..|past|] == past;
  }

  lemma FindingsOnFailure(past: seq<AuthEvent>, e: AuthEvent, start: int, cfg: Settings)
    requires cfg.Valid() && start <= e.ts && e.status == FAILURE
    ensures var cutoff := e.ts - cfg.Window();
            Findings(past + [e], start, cfg) == AddAll(Findings(past, start, cfg),
              OnFailure(e, Failures(past, Pair(e.scope, e.user), cutoff) + [e],
                        Failures(past, Source(e.scope), cutoff) + [e], cfg))
  {
    hide OnFailure, Failures, AddAll;
    assert (past + [e])[..|past|] == past;
  }

  lemma FindingsOnSuccess(past: seq<AuthEvent>, e: AuthEvent, start: int, cfg: Settings)
    requires cfg.Valid() && start <= e.ts && e.status != FAILURE
    ensures Findings(past + [e], start, cfg) == AddAll(Findings(past, start, cfg),
              OnSuccess(e, Failures(past, Pair(e.scope, e.user), e.ts - cfg.Window()), cfg))
  {
    hide OnSuccess, Failures, AddAll;
    assert (past + [e])[..|past|] == past;
  }

  lemma NothingHeld(cuts: map<Subject, int>, floor: int)
    ensures FailureCount([]) == 0 && Held(true, [], cuts, floor) == 0 && Held(false, [], cuts, floor) == 0
  {
  }

  lemma NothingFound(lo: int, start: int, end: int, cfg: Settings)
    requires cfg.Valid()
    ensures Slice([], lo, end) == [] && Findings([], start, cfg) == [] && Ids([]) == {}
  {
  }

  lemma SliceStep(s: seq<AuthEvent>, i: nat, lo: int, hi: int)
    requires i < |s|
    ensures Slice(s[..i + 1], lo, hi)
         == if lo <= s[i].ts < hi then Slice(s[..i], lo, hi) + [s[i]] else Slice(s[..i], lo, hi)
  {
    assert s[..i + 1][..i] == s[..i];
  }

  /** The checks made for one event, on its windows as they are after it. */
  method Judge(findings: seq<Finding>, known: set<FindingId>, event: AuthEvent, start: int, previous: seq<AuthEvent>,
               times: map<int, nat>, all: seq<AuthEvent>, distinct: map<string, nat>, cfg: Settings,
               ghost past: seq<AuthEvent>)
      returns (findings': seq<Finding>, known': set<FindingId>)
    requires cfg.Valid() && known == Ids(findings) && findings == Findings(past, start, cfg)
    requires forall x :: x in past ==> x.ts <= event.ts
    requires Holds(previous, times, TimeOf, past + [event], Pair(event.scope, event.user), event.ts - cfg.Window())
    requires Holds(all, distinct, UserOf, past + [event], Source(event.scope), event.ts - cfg.Window())
    requires var cutoff := event.ts - cfg.Window();
             var own := Failures(past, Pair(event.scope, event.user), cutoff);
             var whole := Failures(past, Source(event.scope), cutoff);
             && previous == (if event.status == FAILURE then own + [event] else own)
             && all == (if event.status == FAILURE then whole + [event] else whole)
    ensures findings' == Findings(past + [event], start, cfg) && known' == Ids(findings')
  {
    hide Findings, OnFailure, OnSuccess, AddAll, Failures, Counts, Holds;
    HoldsCounts(times, TimeOf, previous, past + [event], Pair(event.scope, event.user), event.ts - cfg.Window());
    HoldsCounts(distinct, UserOf, all, past + [event], Source(event.scope), event.ts - cfg.Window());
    findings', known' := findings, known;
    if event.ts < start {
      FindingsQuiet(past, event, start, cfg);
    } else if event.status == FAILURE {
      FindingsOnFailure(past, event, start, cfg);
      findings', known' := JudgeFailure(findings, known, event, previous, all, distinct, cfg);
    } else {
      FindingsOnSuccess(past, event, start, cfg);
      FailuresElements(past, Pair(event.scope, event.user), event.ts - cfg.Window());
      findings', known' := JudgeSuccess(findings, known, event, previous, times, cfg);
    }
  }

  lemma HoldsCounts<K(!new)>(counter: map<K, nat>, key: AuthEvent -> K, deque: seq<AuthEvent>, past: seq<AuthEvent>,
                             k: Subject, cut: int)
    requires Holds(deque, counter, key, past, k, cut)
    ensures Counts(counter, Tally(deque, key))
  {
  }

  /** One iteration of the evaluation loop, for an event inside the scan range. */
  method Step(pairs: map<Subject, seq<AuthEvent>>, pairTimes: map<Subject, map<int, nat>>,
              sources: map<Subject, seq<AuthEvent>>, users: map<Subject, map<string, nat>>,
              findings: seq<Finding>, known: set<FindingId>, event: AuthEvent, start: int, cfg: Settings,
              ghost pairCuts: map<Subject, int>, ghost sourceCuts: map<Subject, int>,
              ghost floor: int, ghost horizon: int, ghost past: seq<AuthEvent>)
      returns (pairs': map<Subject, seq<AuthEvent>>, pairTimes': map<Subject, map<int, nat>>,
               sources': map<Subject, seq<AuthEvent>>, users': map<Subject, map<string, nat>>,
               findings': seq<Finding>, known': set<FindingId>,
               ghost pairCuts': map<Subject, int>, ghost sourceCuts': map<Subject, int>, ghost pops: nat,
               ghost appends: nat)
    requires cfg.Valid() && known == Ids(findings) && findings == Findings(past, start, cfg)
    requires InTime(past) && (forall x :: x in past ==> x.ts <= event.ts) && horizon <= event.ts - cfg.Window()
    requires Tracks(true, pairs, pairTimes, TimeOf, pairCuts, floor, horizon, past)
    requires Tracks(false, sources, users, UserOf, sourceCuts, floor, horizon, past)
    ensures Tracks(true, pairs', pairTimes', TimeOf, pairCuts', floor, event.ts - cfg.Window(), past + [event])
    ensures Tracks(false, sources', users', UserOf, sourceCuts', floor, event.ts - cfg.Window(), past + [event])
    ensures findings' == Findings(past + [event], start, cfg) && known' == Ids(findings')
    ensures pops + Held(true, past + [event], pairCuts', floor) + Held(false, past + [event], sourceCuts', floor)
         == Held(true, past, pairCuts, floor) + Held(false, past, sourceCuts, floor) + appends
    ensures appends == if event.status == FAILURE then 2 else 0
  {
    hide Tracks, Findings, Failures, Held, Holds, Ids, InTime, Counts, Cut, Deque, CounterOf, FailureCount;
    var cutoff := event.ts - cfg.Window();
    var previous, times, all, distinct;
    ghost var pairPops, pairAppends, sourcePops, sourceAppends;
    previous, times, pairs', pairTimes', pairCuts', pairPops, pairAppends :=
      Slide(pairs, pairTimes, TimeOf, Pair(event.scope, event.user), event, cutoff, pairCuts, floor, horizon, past);
    all, distinct, sources', users', sourceCuts', sourcePops, sourceAppends :=
      Slide(sources, users, UserOf, Source(event.scope), event, cutoff, sourceCuts, floor, horizon, past);
    pops, appends := pairPops + sourcePops, pairAppends + sourceAppends;
    findings', known' := Judge(findings, known, event, start, previous, times, all, distinct, cfg, past);
  }

  /**
   * The evaluation loop over the ordered events. Every failure is appended to two deques, and all eviction loops
   * together pop no more than was appended: the whole scan is linear in its failures.
   */
  method Scan(ordered: seq<AuthEvent>, start: int, end: int, cfg: Settings)
      returns (findings: seq<Finding>, ghost pops: nat, ghost appends: nat)
    requires cfg.Valid() && InTime(ordered)
    ensures findings == Findings(Slice(ordered, start - cfg.Window(), end), start, cfg)
    ensures pops <= appends == 2 * FailureCount(Slice(ordered, start - cfg.Window(), end))
  {
    hide Tracks, Findings, Slice, Ids, Held, FailureCount;
    var lo := start - cfg.Window();
    var pairs: map<Subject, seq<AuthEvent>>, pairTimes: map<Subject, map<int, nat>> := map[], map[];
    var sources: map<Subject, seq<AuthEvent>>, users: map<Subject, map<string, nat>> := map[], map[];
    var known: set<FindingId> := {};
    findings := [];
    ghost var past: seq<AuthEvent> := [];
    ghost var pairCuts: map<Subject, int>, sourceCuts: map<Subject, int> := map[], map[];
    ghost var floor := lo - cfg.Window();
    ghost var horizon := floor;
    NothingTracked(true, TimeOf, floor);
    NothingTracked(false, UserOf, floor);
    NothingFound(lo, start, end, cfg);
    NothingHeld(pairCuts, floor);
    pops, appends := 0, 0;
    for i := 0 to |ordered|
      invariant past == Slice(ordered[..i], lo, end)
      invariant forall j :: i <= j < |ordered| && lo <= ordered[j].ts ==> horizon <= ordered[j].ts - cfg.Window()
      invariant Tracks(true, pairs, pairTimes, TimeOf, pairCuts, floor, horizon, past)
      invariant Tracks(false, sources, users, UserOf, sourceCuts, floor, horizon, past)
      invariant findings == Findings(past, start, cfg) && known == Ids(findings)
      invariant pops + Held(true, past, pairCuts, floor) + Held(false, past, sourceCuts, floor) == appends
      invariant appends == 2 * FailureCount(past)
    {
      var event := ordered[i];
      SliceStep(ordered, i, lo, end);
      if event.ts < lo || event.ts >= end {
        continue;
      }
      SliceInTime(ordered[..i], lo, end);
      FailureCountSnoc(past, event);
      ghost var popped, appended;
      pairs, pairTimes, sources, users, findings, known, pairCuts, sourceCuts, popped, appended :=
        Step(pairs, pairTimes, sources, users, findings, known, event, start, cfg, pairCuts, sourceCuts, floor,
             horizon, past);
      pops, appends := pops + popped, appends + appended;
      past := past + [event];
      horizon := event.ts - cfg.Window();
    }
    assert ordered[..|ordered|] == ordered;
  }

  lemma ScanIsDetections(events: seq<AuthEvent>, start: int, end: int, cfg: Settings)
    requires cfg.Valid()
    ensures Detections(events, start, end, cfg)
              == Findings(Slice(Canonical(events), start - cfg.Window(), end), start, cfg)
  {
    hide Findings, Slice, Canonical;
  }

  /** A scan bound as it is passed in: an instant, or a time that names no timezone. */
  datatype Bound = At(instant: int) | Naive

  predicate InRange(start: Bound, end: Bound) { start.At? && end.At? && start.instant < end.instant }

  method Evaluate(events: seq<AuthEvent>, start: Bound, end: Bound, cfg: Settings)
      returns (r: Result<seq<Finding>, Error>)
    requires cfg.Valid()
    ensures !InRange(start, end) ==> r == Result.Failure(BadRange)
    ensures InRange(start, end) && |events| > cfg.maxEvents ==> r == Result.Failure(TooManyEvents)
    ensures InRange(start, end) && |events| <= cfg.maxEvents ==>
              r == Success(Detections(events, start.instant, end.instant, cfg))
  {
    hide Detections, Canonical;
    if start == Naive || end == Naive || start.instant >= end.instant {
      return Result.Failure(BadRange);
    }
    if |events| > cfg.maxEvents {
      return Result.Failure(TooManyEvents);
    }
    CanonicalInTime(events);
    var findings;
    ghost var pops, appends;
    findings, pops, appends := Scan(Canonical(events), start.instant, end.instant, cfg);
    ScanIsDetections(events, start.instant, end.instant, cfg);
    return Success(findings);
  }
}
