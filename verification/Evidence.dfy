/** What the evidence of a finding shows. */
module Evidence {
  import opened Prelude
  import opened AuthEvents
  import opened Windows
  import opened Rules
  import opened RuleIds

  /** A sample in key order, without repeated ids, ending in the trigger, inside the trigger's window. */
  ghost predicate WellSampled(sample: seq<AuthEvent>, e: AuthEvent, k: Subject, from: set<AuthEvent>, cfg: Settings) {
    && sample != [] && sample[|sample| - 1] == e
    && Sorted(sample) && Identified(sample)
    && (forall x :: x in sample ==> x in from && About(k, x) && e.ts - cfg.Window() <= x.ts <= e.ts)
    && (forall i :: 0 <= i < |sample| - 1 ==> sample[i].status == FAILURE)
  }

  /** How the evidence of f reads back: e triggered f, and `sample` is what f cites. */
  ghost predicate Supported(f: Finding, e: AuthEvent, sample: seq<AuthEvent>, from: set<AuthEvent>, cfg: Settings)
    requires cfg.Valid()
  {
    var k := if f.id.rule == PasswordSpray then Source(e.scope) else Pair(e.scope, e.user);
    && f.id == IdOf(f.id.rule, e, cfg) && f.lastSeen == e.ts
    && f.evidenceIds == EventIds(sample) && WellSampled(sample, e, k, from, cfg)
    && e.ts - cfg.Window() <= f.firstSeen <= sample[0].ts
    && f.truncated == (f.count > |sample|)
    && match f.id.rule
       case RepeatedFailures =>
         e.status == FAILURE && |sample| == Min(cfg.evidenceLimit, f.count) && f.count >= cfg.failureThreshold
       case SuccessAfterFailures =>
         && e.status != FAILURE && |sample| == Min(cfg.evidenceLimit, f.count) && f.count > cfg.failureThreshold
         && forall i :: 0 <= i < |sample| - 1 ==> sample[i].ts < e.ts
       case PasswordSpray =>
         && e.status == FAILURE && |sample| <= cfg.evidenceLimit
         && f.distinctUsers.Some? && f.distinctUsers.value >= cfg.sprayThreshold
         && |UsersOf(sample)| >= Min(cfg.evidenceLimit - 1, f.distinctUsers.value)
  }

  /** The whole input of one firing, in order: what came before e, then e. */
  ghost predicate Ordered(past: seq<AuthEvent>, e: AuthEvent) {
    Sorted(past + [e]) && Identified(past + [e])
  }

  lemma {:induction false} FailuresOrdered(s: seq<AuthEvent>, k: Subject, cutoff: int)
    requires Sorted(s) && Identified(s)
    ensures Sorted(Failures(s, k, cutoff)) && Identified(Failures(s, k, cutoff))
  {
    hide Sorted, Identified, Before;
    if s == [] {
      NothingSorted();
    } else {
      var n := |s| - 1;
      assert s == s[..n] + [s[n]];
      SortedFront(s[..n], s[n]);
      FailuresOrdered(s[..n], k, cutoff);
      FailuresElements(s[..n], k, cutoff);
      var front := Failures(s[..n], k, cutoff);
      SortedSnoc(front, s[n]);
      assert front + [] == front;
    }
  }

  /** The window with e appended is itself a well-formed sample. */
  lemma WindowWithTrigger(past: seq<AuthEvent>, e: AuthEvent, k: Subject, w: seq<AuthEvent>, cfg: Settings)
    requires Ordered(past, e) && About(k, e) && cfg.Valid()
    requires w == Failures(past, k, e.ts - cfg.Window())
    ensures WellSampled(w + [e], e, k, Elements(past + [e]), cfg)
    ensures e !in w
  {
    hide Failures;
    var s := past + [e];
    assert Sorted(past) && Identified(past) by {
      assert forall i :: 0 <= i < |past| ==> past[i] == s[i];
    }
    FailuresOrdered(past, k, e.ts - cfg.Window());
    FailuresElements(past, k, e.ts - cfg.Window());
    forall x | x in past ensures Before(x, e) && x.id != e.id && x in s {
      var i :| 0 <= i < |past| && past[i] == x;
      assert s[i] == x && s[|past|] == e;
    }
  }

  /** Cutting a well-formed sample short before its trigger keeps it well formed. */
  lemma CutSample(w: seq<AuthEvent>, n: nat, e: AuthEvent, k: Subject, from: set<AuthEvent>, cfg: Settings)
    requires WellSampled(w + [e], e, k, from, cfg) && n <= |w|
    ensures WellSampled(w[..n] + [e], e, k, from, cfg)
  {
    hide Before, About;
    var full, cut := w + [e], w[..n] + [e];
    assert forall i :: 0 <= i < n ==> cut[i] == full[i];
    assert full[|w|] == e;
  }

  lemma {:induction false} EarlierPrefix(s: seq<AuthEvent>, t: int)
    requires InTime(s)
    ensures forall i :: 0 <= i < EarlierThan(s, t) ==> s[i].ts < t
  {
    if s != [] {
      var n := |s| - 1;
      EarlierPrefix(s[..n], t);
      if s[n].ts < t { EarlierAll(s[..n], t); }
    }
  }

  lemma {:induction false} EarlierAll(s: seq<AuthEvent>, t: int)
    requires forall x :: x in s ==> x.ts < t
    ensures EarlierThan(s, t) == |s|
  {
    if s != [] { EarlierAll(s[..|s| - 1], t); }
  }

  /** The representatives keep the order of the events, and only the last can be the last event. */
  lemma {:induction false} RepresentativesOrdered(s: seq<AuthEvent>)
    requires Sorted(s) && Identified(s)
    ensures Sorted(Representatives(s)) && Identified(Representatives(s))
    ensures forall x :: x in Representatives(s) ==> x in s
  {
    hide Before, UsersOf, Sorted, Identified;
    if s == [] {
      NothingSorted();
    } else {
      var n := |s| - 1;
      assert s == s[..n] + [s[n]];
      SortedFront(s[..n], s[n]);
      RepresentativesOrdered(s[..n]);
      SortedSnoc(Representatives(s[..n]), s[n]);
    }
  }

  lemma {:induction false} RepresentativesDistinctUsers(s: seq<AuthEvent>)
    ensures forall i, j :: 0 <= i < j < |Representatives(s)| ==>
              Representatives(s)[i].user != Representatives(s)[j].user
  {
    if s != [] {
      RepresentativesDistinctUsers(s[..|s| - 1]);
    }
  }

  lemma {:induction false} UsersOfDistinct(s: seq<AuthEvent>)
    requires forall i, j :: 0 <= i < j < |s| ==> s[i].user != s[j].user
    ensures |UsersOf(s)| == |s|
  {
    if s != [] {
      var n := |s| - 1;
      UsersOfDistinct(s[..n]);
      assert s == s[..n] + [s[n]];
      assert UsersOf(s) == UsersOf(s[..n]) + {s[n].user};
    }
  }

  /**
   * The evidence is taken from the front of the window: what comes before a cited event is cited too, and in a spray
   * its user is, by the first event of that user.
   */
  ghost predicate EarliestCited(rule: Rule, sample: seq<AuthEvent>, e: AuthEvent, window: set<AuthEvent>) {
    forall x, y :: x in window && y in sample && y != e && Before(x, y) ==>
      if rule == PasswordSpray then x.user != y.user && CitedBy(sample, x) else x in sample
  }

  /** Some cited event has the user of x and comes no later. */
  ghost predicate CitedBy(sample: seq<AuthEvent>, x: AuthEvent) {
    exists z :: z in sample && z.user == x.user && (z == x || Before(z, x))
  }

  lemma BeforeByIndex(s: seq<AuthEvent>, i: nat, j: nat)
    requires Sorted(s) && i < |s| && j < |s| && Before(s[i], s[j])
    ensures i < j
  {
    if j < i { BeforeTransitive(s[j], s[i], s[j]); }
    if j <= i { Text.LexIrreflexive(s[j].id); }
  }

  lemma PrefixIsEarliest(s: seq<AuthEvent>, n: nat, x: AuthEvent, y: AuthEvent)
    requires Sorted(s) && n <= |s| && x in s && y in s[..n] && Before(x, y)
    ensures x in s[..n]
  {
    var i :| 0 <= i < |s| && s[i] == x;
    var j :| 0 <= j < n && s[j] == y;
    BeforeByIndex(s, i, j);
    assert s[..n][i] == x;
  }

  /** Every user is represented, by an event that comes no later than any other event of that user. */
  lemma {:induction false} FirstRepresents(s: seq<AuthEvent>, x: AuthEvent) returns (z: AuthEvent)
    requires Sorted(s) && Identified(s) && x in s
    ensures z in Representatives(s) && z.user == x.user && (z == x || Before(z, x))
    ensures forall r :: r in Representatives(s) && r.user == x.user ==> r == z
  {
    hide Before, Sorted, Identified;
    var n := |s| - 1;
    assert s == s[..n] + [s[n]];
    SortedFront(s[..n], s[n]);
    RepresentativesOrdered(s[..n]);
    RepresentativesDistinctUsers(s);
    if x in s[..n] {
      z := FirstRepresents(s[..n], x);
    } else if r :| r in Representatives(s[..n]) && r.user == x.user {
      z := r;
    } else {
      z := x;
    }
    OnlyRepresentative(Representatives(s), z);
  }

  lemma OnlyRepresentative(reps: seq<AuthEvent>, z: AuthEvent)
    requires z in reps && forall i, j :: 0 <= i < j < |reps| ==> reps[i].user != reps[j].user
    ensures forall r :: r in reps && r.user == z.user ==> r == z
  {
    var i :| 0 <= i < |reps| && reps[i] == z;
    forall r | r in reps && r.user == z.user ensures r == z {
      var j :| 0 <= j < |reps| && reps[j] == r;
    }
  }

  /** The sample that emit takes from its evidence. */
  lemma SampleIsEarliest(rule: Rule, e: AuthEvent, evidence: seq<AuthEvent>, count: nat, cfg: Settings)
    requires cfg.Valid() && count > 0 && Sorted(evidence) && Identified(evidence)
    ensures EarliestCited(rule, Sample(rule, e, evidence, count, cfg), e, Elements(evidence))
  {
    hide Before, Sorted, Identified, Representatives;
    var sample := Sample(rule, e, evidence, count, cfg);
    var source := if rule == PasswordSpray then Representatives(evidence) else evidence;
    RepresentativesOrdered(evidence);
    var n :| 0 <= n <= |source| && (sample == source[..n] || sample == source[..n] + [e]);
    forall x, y | x in evidence && y in sample && y != e && Before(x, y)
      ensures if rule == PasswordSpray then x.user != y.user && CitedBy(sample, x) else x in sample
    {
      assert y in source[..n];
      if rule == PasswordSpray {
        var z := FirstRepresents(evidence, x);
        RepresentativeFirst(evidence, source, n, x, y, z);
        assert z in sample;
      } else {
        PrefixIsEarliest(evidence, n, x, y);
      }
    }
  }

  lemma RepresentativeFirst(s: seq<AuthEvent>, reps: seq<AuthEvent>, n: nat, x: AuthEvent, y: AuthEvent, z: AuthEvent)
    requires Sorted(reps) && n <= |reps| && y in reps[..n] && z in reps && Before(x, y) && (z == x || Before(z, x))
    requires forall r :: r in reps && r.user == x.user ==> r == z
    ensures z in reps[..n] && x.user != y.user
  {
    if z != x { BeforeTransitive(z, x, y); }
    PrefixIsEarliest(reps, n, z, y);
    var j :| 0 <= j < n && reps[j] == y;
    if x.user == y.user {
      assert y == z;
      BeforeByIndex(reps, j, j);
    }
  }

  lemma SampledInOrder(sample: seq<AuthEvent>, e: AuthEvent, k: Subject, from: set<AuthEvent>, cfg: Settings)
    requires WellSampled(sample, e, k, from, cfg)
    ensures Sorted(sample) && Identified(sample)
  {
  }

  /** The failures that a rule looks at when e comes after `past`. */
  function Window(rule: Rule, past: seq<AuthEvent>, e: AuthEvent, cfg: Settings): seq<AuthEvent> {
    var k := if rule == PasswordSpray then Source(e.scope) else Pair(e.scope, e.user);
    Failures(past, k, e.ts - cfg.Window()) + if rule == SuccessAfterFailures then [] else [e]
  }

  lemma RepeatedSupported(past: seq<AuthEvent>, e: AuthEvent, cfg: Settings) returns (sample: seq<AuthEvent>)
    requires cfg.Valid() && Ordered(past, e) && FiresAt(RepeatedFailures, past, e, cfg)
    ensures var mine := Failures(past, Pair(e.scope, e.user), e.ts - cfg.Window()) + [e];
            && Supported(Emission(RepeatedFailures, e, mine, |mine|, cfg), e, sample, Elements(past + [e]), cfg)
            && EarliestCited(RepeatedFailures, sample, e, Elements(mine))
  {
    hide Failures, EventIds, Ordered, WellSampled, EarliestCited;
    var k := Pair(e.scope, e.user);
    var w := Failures(past, k, e.ts - cfg.Window());
    var mine := w + [e];
    WindowWithTrigger(past, e, k, w, cfg);
    sample := Sample(RepeatedFailures, e, mine, |mine|, cfg);
    SampledInOrder(mine, e, k, Elements(past + [e]), cfg);
    SampleIsEarliest(RepeatedFailures, e, mine, |mine|, cfg);
    if |mine| <= cfg.evidenceLimit - 1 {
      assert mine[|w|] == e;
      assert sample == mine;
      FirstInWindow(mine, mine, e, k, Elements(past + [e]), cfg);
    } else {
      var n := cfg.evidenceLimit - 1;
      assert mine[..n] == w[..n];
      assert sample == w[..n] + [e];
      CutSample(w, n, e, k, Elements(past + [e]), cfg);
      FirstInWindow(mine, sample, e, k, Elements(past + [e]), cfg);
    }
  }

  /** The first event of the window bounds the first cited event from below. */
  lemma FirstInWindow(window: seq<AuthEvent>, sample: seq<AuthEvent>, e: AuthEvent, k: Subject, from: set<AuthEvent>,
                      cfg: Settings)
    requires WellSampled(window, e, k, from, cfg) && WellSampled(sample, e, k, from, cfg)
    requires sample[0] in window
    ensures e.ts - cfg.Window() <= window[0].ts <= sample[0].ts
  {
    var i :| 0 <= i < |window| && window[i] == sample[0];
    if i > 0 { assert Before(window[0], window[i]); }
  }

  lemma SuccessSupported(past: seq<AuthEvent>, e: AuthEvent, cfg: Settings) returns (sample: seq<AuthEvent>)
    requires cfg.Valid() && Ordered(past, e) && e.status == SUCCESS && FiresAt(SuccessAfterFailures, past, e, cfg)
    ensures var own := Failures(past, Pair(e.scope, e.user), e.ts - cfg.Window());
            && Supported(Emission(SuccessAfterFailures, e, own, EarlierThan(own, e.ts) + 1, cfg), e, sample,
                         Elements(past + [e]), cfg)
            && EarliestCited(SuccessAfterFailures, sample, e, Elements(own))
  {
    hide Failures, EventIds, Ordered, EarlierThan, Before, WellSampled, Supported, Emission, Sample, EarliestCited;
    var k := Pair(e.scope, e.user);
    var own := Failures(past, k, e.ts - cfg.Window());
    var earlier := EarlierThan(own, e.ts);
    WindowWithTrigger(past, e, k, own, cfg);
    OwnInTime(own, e, k, Elements(past + [e]), cfg);
    EarlierPrefix(own, e.ts);
    var n := Min(cfg.evidenceLimit - 1, earlier);
    CutSample(own, n, e, k, Elements(past + [e]), cfg);
    sample := own[..n] + [e];
    SuccessSample(own, n, earlier, e, cfg);
    SampledInOrder(own + [e], e, k, Elements(past + [e]), cfg);
    SortedFront(own, e);
    SampleIsEarliest(SuccessAfterFailures, e, own, earlier + 1, cfg);
    SuccessIsSupported(own, n, earlier, e, k, Elements(past + [e]), cfg);
  }

  lemma SuccessSample(own: seq<AuthEvent>, n: nat, earlier: nat, e: AuthEvent, cfg: Settings)
    requires cfg.Valid() && e.status == SUCCESS && earlier <= |own| && n == Min(cfg.evidenceLimit - 1, earlier)
             && e !in own
    ensures Sample(SuccessAfterFailures, e, own, earlier + 1, cfg) == own[..n] + [e]
  {
    hide Representatives, UsersOf;
    assert forall x :: x in own[..n] ==> x in own;
  }

  lemma SuccessIsSupported(own: seq<AuthEvent>, n: nat, earlier: nat, e: AuthEvent, k: Subject, from: set<AuthEvent>,
                           cfg: Settings)
    requires cfg.Valid() && e.status == SUCCESS && k == Pair(e.scope, e.user) && WellSampled(own + [e], e, k, from, cfg)
    requires cfg.failureThreshold <= earlier <= |own| && n == Min(cfg.evidenceLimit - 1, earlier)
    requires WellSampled(own[..n] + [e], e, k, from, cfg) && forall i :: 0 <= i < n ==> own[i].ts < e.ts
    requires Sample(SuccessAfterFailures, e, own, earlier + 1, cfg) == own[..n] + [e]
    ensures Supported(Emission(SuccessAfterFailures, e, own, earlier + 1, cfg), e, own[..n] + [e], from, cfg)
  {
    hide Sample, EventIds, Sorted, Identified, UsersOf, About, Representatives, Bucket;
    assert (own[..n] + [e])[0] == own[0] == (own + [e])[0];
    assert own[0] in own + [e];
    EventIdsAt(own[..n] + [e]);
  }

  lemma OwnInTime(own: seq<AuthEvent>, e: AuthEvent, k: Subject, from: set<AuthEvent>, cfg: Settings)
    requires WellSampled(own + [e], e, k, from, cfg)
    ensures InTime(own)
  {
    var full := own + [e];
    forall i, j | 0 <= i < j < |own| ensures own[i].ts <= own[j].ts {
      assert Before(full[i], full[j]);
    }
  }

  lemma BeforeTrigger(w: seq<AuthEvent>, e: AuthEvent, k: Subject, from: set<AuthEvent>, cfg: Settings, x: AuthEvent)
    requires WellSampled(w + [e], e, k, from, cfg) && x in w + [e] && x != e
    ensures Before(x, e) && x.id != e.id && x.status == FAILURE
  {
    hide Before, About;
    var all := w + [e];
    var j :| 0 <= j < |all| && all[j] == x;
    assert all[|w|] == e && j < |w|;
  }

  /** Picks in order, completed by the trigger when it was not picked. */
  lemma PicksWellSampled(picked: seq<AuthEvent>, e: AuthEvent, k: Subject, from: set<AuthEvent>, cfg: Settings)
    requires Sorted(picked) && Identified(picked)
    requires forall x :: x in picked + [e] ==> x in from && About(k, x) && e.ts - cfg.Window() <= x.ts <= e.ts
    requires forall x :: x in picked && x != e ==> Before(x, e) && x.id != e.id && x.status == FAILURE
    requires e in picked ==> picked[|picked| - 1] == e
    ensures WellSampled(if e in picked then picked else picked + [e], e, k, from, cfg)
  {
    hide Before, About;
  }

  /** The distinct-user sample of a spray: the first users met, then the trigger. */
  lemma SpraySample(w: seq<AuthEvent>, e: AuthEvent, k: Subject, from: set<AuthEvent>, cfg: Settings)
    requires cfg.Valid() && WellSampled(w + [e], e, k, from, cfg) && e.status == FAILURE
    ensures var sample := Sample(PasswordSpray, e, w + [e], |w| + 1, cfg);
            && WellSampled(sample, e, k, from, cfg) && sample[0] in w + [e]
            && |sample| <= cfg.evidenceLimit
            && |UsersOf(sample)| >= Min(cfg.evidenceLimit - 1, |Representatives(w + [e])|)
  {
    hide UsersOf, Representatives, Before, About;
    var all := w + [e];
    var reps := Representatives(all);
    RepresentativesOrdered(all);
    RepresentativesDistinctUsers(all);
    var picked := Take(reps, cfg.evidenceLimit - 1);
    UsersOfDistinct(picked);
    forall x | x in reps && x != e ensures Before(x, e) && x.id != e.id && x.status == FAILURE {
      BeforeTrigger(w, e, k, from, cfg, x);
    }
    TriggerLast(picked, reps, e);
    PicksWellSampled(picked, e, k, from, cfg);
    var sample := Sample(PasswordSpray, e, all, |all|, cfg);
    assert sample == if e in picked then picked else picked + [e];
    assert picked <= sample;
    UsersGrow(picked, sample);
  }

  lemma UsersGrow(a: seq<AuthEvent>, b: seq<AuthEvent>)
    requires a <= b
    ensures |UsersOf(a)| <= |UsersOf(b)|
  {
    SubsetCount(UsersOf(a), UsersOf(b));
  }

  /** If the trigger was picked it is the last pick. */
  lemma TriggerLast(picked: seq<AuthEvent>, reps: seq<AuthEvent>, e: AuthEvent)
    requires picked <= reps && Sorted(reps) && Identified(reps)
    requires forall i :: 0 <= i < |reps| && reps[i] != e ==> Before(reps[i], e)
    ensures e in picked ==> picked[|picked| - 1] == e
  {
    if e in picked {
      var i :| 0 <= i < |picked| && picked[i] == e;
      if i < |picked| - 1 {
        assert Before(reps[i], reps[i + 1]);
        if reps[i + 1] != e {
          BeforeTransitive(e, reps[i + 1], e);
          Text.LexIrreflexive(e.id);
        }
      }
    }
  }

  lemma SpraySupported(past: seq<AuthEvent>, e: AuthEvent, cfg: Settings) returns (sample: seq<AuthEvent>)
    requires cfg.Valid() && Ordered(past, e) && FiresAt(PasswordSpray, past, e, cfg)
    ensures var all := Failures(past, Source(e.scope), e.ts - cfg.Window()) + [e];
            && Supported(Emission(PasswordSpray, e, all, |all|, cfg), e, sample, Elements(past + [e]), cfg)
            && EarliestCited(PasswordSpray, sample, e, Elements(all))
  {
    hide Failures, EventIds, Ordered, WellSampled, UsersOf, Representatives, EarliestCited;
    var k := Source(e.scope);
    var w := Failures(past, k, e.ts - cfg.Window());
    var all := w + [e];
    WindowWithTrigger(past, e, k, w, cfg);
    SpraySample(w, e, k, Elements(past + [e]), cfg);
    RepresentativeUsers(all);
    sample := Sample(PasswordSpray, e, all, |all|, cfg);
    SampledInOrder(all, e, k, Elements(past + [e]), cfg);
    SampleIsEarliest(PasswordSpray, e, all, |all|, cfg);
    FirstInWindow(all, sample, e, k, Elements(past + [e]), cfg);
  }

  lemma FiringSupported(past: seq<AuthEvent>, e: AuthEvent, cfg: Settings, f: Finding) returns (sample: seq<AuthEvent>)
    requires cfg.Valid() && Ordered(past, e) && e.status in {SUCCESS, FAILURE} && f in Fires(past, e, cfg)
    ensures Supported(f, e, sample, Elements(past + [e]), cfg)
    ensures EarliestCited(f.id.rule, sample, e, Elements(Window(f.id.rule, past, e, cfg)))
  {
    hide Failures, Ordered, Supported, EarlierThan, UsersOf, Sample, EventIds, Representatives, EarliestCited, Bucket;
    if e.status == FAILURE {
      if FiresAt(RepeatedFailures, past, e, cfg) {
        var mine := Failures(past, Pair(e.scope, e.user), e.ts - cfg.Window()) + [e];
        if f == Emission(RepeatedFailures, e, mine, |mine|, cfg) {
          sample := RepeatedSupported(past, e, cfg);
          return;
        }
      }
      sample := SpraySupported(past, e, cfg);
    } else {
      sample := SuccessSupported(past, e, cfg);
      var own := Failures(past, Pair(e.scope, e.user), e.ts - cfg.Window());
      assert own + [] == own;
    }
  }

  /** Every finding of a run stems from one event at or after the scan start. */
  lemma {:induction false} FindingOrigin(s: seq<AuthEvent>, start: int, cfg: Settings, f: Finding) returns (k: nat)
    requires cfg.Valid() && f in Findings(s, start, cfg)
    ensures k < |s| && start <= s[k].ts && f in Fires(s[..k], s[k], cfg)
  {
    hide Fires, AddAll;
    var n := |s| - 1;
    var fired := if start <= s[n].ts then Fires(s[..n], s[n], cfg) else [];
    AddAllMembers(Findings(s[..n], start, cfg), fired, f);
    if f in fired {
      k := n;
    } else {
      k := FindingOrigin(s[..n], start, cfg, f);
      assert s[..n][..k] == s[..k];
    }
  }

  lemma {:induction false} AddAllMembers(fs: seq<Finding>, more: seq<Finding>, f: Finding)
    ensures f in AddAll(fs, more) ==> f in fs || f in more
    decreases |more|
  {
    if more != [] {
      AddAllMembers(Add(fs, more[0]), more[1..], f);
    }
  }

  lemma SupportWidens(f: Finding, e: AuthEvent, sample: seq<AuthEvent>, part: set<AuthEvent>, all: set<AuthEvent>,
                      cfg: Settings)
    requires cfg.Valid() && part <= all && Supported(f, e, sample, part, cfg)
    ensures Supported(f, e, sample, all, cfg)
  {
    hide EventIds, UsersOf, IdOf, Before;
  }

  lemma EligibleLatest(events: seq<AuthEvent>, e: AuthEvent)
    requires e in Latest(events)
    ensures Eligible(e)
  {
  }

  lemma {:induction false} EventIdsAt(s: seq<AuthEvent>)
    ensures |EventIds(s)| == |s| && forall i :: 0 <= i < |s| ==> EventIds(s)[i] == s[i].id
  {
    if s != [] { EventIdsAt(s[..|s| - 1]); }
  }

  lemma DistinctEvidence(f: Finding, e: AuthEvent, sample: seq<AuthEvent>, from: set<AuthEvent>, cfg: Settings)
    requires cfg.Valid() && Supported(f, e, sample, from, cfg)
    ensures forall i, j :: 0 <= i < j < |f.evidenceIds| ==> f.evidenceIds[i] != f.evidenceIds[j]
  {
    hide EventIds, UsersOf, IdOf, Before;
    EventIdsAt(sample);
  }

  // ---------------------------------------------------------------- counts and first_seen

  /** The failures of k in e's window that come no later than e in key order. */
  ghost function Seen(all: set<AuthEvent>, k: Subject, e: AuthEvent, cfg: Settings): set<AuthEvent> {
    set x | x in all && IsFailure(k, x) && e.ts - cfg.Window() <= x.ts && (x == e || Before(x, e))
  }

  ghost predicate Earliest(t: int, all: set<AuthEvent>) {
    (exists x :: x in all && x.ts == t) && forall x :: x in all ==> t <= x.ts
  }

  /** The numbers of a finding, recounted from the set of events. */
  ghost predicate Counted(f: Finding, e: AuthEvent, all: set<AuthEvent>, cfg: Settings) {
    var lo := e.ts - cfg.Window();
    match f.id.rule
    case RepeatedFailures =>
      var seen := Seen(all, Pair(e.scope, e.user), e, cfg);
      f.count == |seen| && f.distinctUsers == None && Earliest(f.firstSeen, seen)
    case PasswordSpray =>
      var seen := Seen(all, Source(e.scope), e, cfg);
      f.count == |seen| && f.distinctUsers == Some(|UserSet(seen)|) && Earliest(f.firstSeen, seen)
    case SuccessAfterFailures =>
      var before := FailuresBefore(all, Pair(e.scope, e.user), lo, e.ts);
      f.count == |before| + 1 && f.distinctUsers == None && Earliest(f.firstSeen, before)
  }

  /** Among events that cover e's window, those before index m in key order are the ones before e. */
  lemma WindowIsSeen(s: seq<AuthEvent>, m: nat, k: Subject, all: set<AuthEvent>, cfg: Settings)
    requires m < |s| && Sorted(s) && cfg.Valid()
    requires forall x :: x in s ==> x in all
    requires forall x :: x in all && s[m].ts - cfg.Window() <= x.ts <= s[m].ts ==> x in s
    ensures var w := Failures(s[..m], k, s[m].ts - cfg.Window());
            Elements(if IsFailure(k, s[m]) then w + [s[m]] else w) == Seen(all, k, s[m], cfg)
  {
    hide Failures;
    var e, lo := s[m], s[m].ts - cfg.Window();
    FailuresElements(s[..m], k, lo);
    forall x | x in s && Before(x, e) ensures x in s[..m] {
      var j :| 0 <= j < |s| && s[j] == x;
      if j > m { BeforeTransitive(e, x, e); }
      if j >= m { Text.LexIrreflexive(e.id); }
      assert s[..m][j] == x;
    }
    forall x | x in s[..m] ensures Before(x, e) && x in s {
      var j :| 0 <= j < m && s[j] == x;
    }
  }

  lemma FirstIsEarliest(w: seq<AuthEvent>)
    requires w != [] && InTime(w)
    ensures Earliest(w[0].ts, Elements(w))
  {
    assert w[0] in Elements(w);
  }

  lemma SortedInTime(s: seq<AuthEvent>)
    requires Sorted(s)
    ensures InTime(s)
  {
  }

  lemma FailureCounted(w: seq<AuthEvent>, e: AuthEvent, rule: Rule, all: set<AuthEvent>, cfg: Settings)
    requires cfg.Valid() && rule != SuccessAfterFailures
    requires InTime(w + [e]) && Distinct(w + [e])
    requires
      var k := if rule == PasswordSpray then Source(e.scope) else Pair(e.scope, e.user);
      Elements(w + [e]) == Seen(all, k, e, cfg)
    ensures Counted(Emission(rule, e, w + [e], |w| + 1, cfg), e, all, cfg)
  {
    hide Seen, Sample, EventIds, Representatives;
    DistinctCount(w + [e]);
    FirstIsEarliest(w + [e]);
    RepresentativeUsers(w + [e]);
    assert UsersOf(w + [e]) == UserSet(Elements(w + [e]));
  }

  lemma SuccessCounted(own: seq<AuthEvent>, e: AuthEvent, all: set<AuthEvent>, cfg: Settings)
    requires cfg.Valid() && e.status != FAILURE && EarlierThan(own, e.ts) > 0
    requires InTime(own) && Distinct(own)
    requires Elements(own) == Seen(all, Pair(e.scope, e.user), e, cfg)
    ensures Counted(Emission(SuccessAfterFailures, e, own, EarlierThan(own, e.ts) + 1, cfg), e, all, cfg)
  {
    hide Sample, EventIds, EarlierThan;
    var k, lo := Pair(e.scope, e.user), e.ts - cfg.Window();
    EarlierCount(own, e.ts);
    EarlierPrefix(own, e.ts);
    FirstIsEarliest(own);
    var early := set f | f in own && f.ts < e.ts;
    forall x ensures x in early <==> x in FailuresBefore(all, k, lo, e.ts) {
      assert x in own <==> x in Elements(own);
    }
    assert early == FailuresBefore(all, k, lo, e.ts);
    assert own[0] in early;
  }

  lemma FiringCounted(s: seq<AuthEvent>, m: nat, all: set<AuthEvent>, cfg: Settings, f: Finding)
    requires m < |s| && Sorted(s) && Identified(s) && cfg.Valid() && f in Fires(s[..m], s[m], cfg)
    requires forall x :: x in s ==> x in all
    requires forall x :: x in all && s[m].ts - cfg.Window() <= x.ts <= s[m].ts ==> x in s
    ensures Counted(f, s[m], all, cfg)
  {
    hide Failures, Emission, Counted, Before, EarlierThan, Seen, UsersOf, Elements;
    var e := s[m];
    var pair, source := Pair(e.scope, e.user), Source(e.scope);
    WindowIsSeen(s, m, pair, all, cfg);
    WindowIsSeen(s, m, source, all, cfg);
    WindowKept(s, m, pair, cfg);
    WindowKept(s, m, source, cfg);
    if e.status == FAILURE {
      FailureCounted(Failures(s[..m], pair, e.ts - cfg.Window()), e, RepeatedFailures, all, cfg);
      FailureCounted(Failures(s[..m], source, e.ts - cfg.Window()), e, PasswordSpray, all, cfg);
    } else {
      SuccessCounted(Failures(s[..m], pair, e.ts - cfg.Window()), e, all, cfg);
    }
  }

  lemma WindowKept(s: seq<AuthEvent>, m: nat, k: Subject, cfg: Settings)
    requires m < |s| && Sorted(s) && Identified(s)
    ensures var w := Failures(s[..m], k, s[m].ts - cfg.Window());
            && InTime(w) && Distinct(w) && InTime(w + [s[m]]) && Distinct(w + [s[m]])
  {
    hide Failures;
    FailuresOrdered(s[..m], k, s[m].ts - cfg.Window());
    FailuresElements(s[..m], k, s[m].ts - cfg.Window());
    SortedInTime(Failures(s[..m], k, s[m].ts - cfg.Window()));
    forall x | x in s[..m] ensures x.ts <= s[m].ts && x != s[m] {
      var j :| 0 <= j < m && s[j] == x;
      assert Before(s[j], s[m]);
    }
  }

  lemma RuleFires(past: seq<AuthEvent>, e: AuthEvent, cfg: Settings, f: Finding)
    requires cfg.Valid() && f in Fires(past, e, cfg)
    ensures f.id.rule == SuccessAfterFailures <==> e.status != FAILURE
  {
    hide Failures, Sample, EventIds, Representatives, UsersOf, EarlierThan, Bucket;
  }

  lemma WindowOfRule(rule: Rule, s: seq<AuthEvent>, m: nat, all: set<AuthEvent>, cfg: Settings)
    requires m < |s| && Sorted(s) && cfg.Valid() && (rule == SuccessAfterFailures <==> s[m].status != FAILURE)
    requires forall x :: x in s ==> x in all
    requires forall x :: x in all && s[m].ts - cfg.Window() <= x.ts <= s[m].ts ==> x in s
    ensures
      var k := if rule == PasswordSpray then Source(s[m].scope) else Pair(s[m].scope, s[m].user);
      Elements(Window(rule, s[..m], s[m], cfg)) == Seen(all, k, s[m], cfg)
  {
    hide Failures, Seen, Elements, Sorted;
    var k := if rule == PasswordSpray then Source(s[m].scope) else Pair(s[m].scope, s[m].user);
    var w := Failures(s[..m], k, s[m].ts - cfg.Window());
    WindowIsSeen(s, m, k, all, cfg);
    assert w + [] == w;
  }

  /**
   * Every finding that evaluate returns has a trigger e in the scan range for which its counts and first_seen
   * are those of e's window, and whose window holds the cited events: its earliest ones in time order, each once,
   * then e.
   */
  lemma FindingSound(events: seq<AuthEvent>, start: int, end: int, cfg: Settings, f: Finding)
      returns (e: AuthEvent, sample: seq<AuthEvent>)
    requires cfg.Valid() && f in Detections(events, start, end, cfg)
    ensures e in Latest(events) && start <= e.ts < end
    ensures Supported(f, e, sample, Latest(events), cfg) && Counted(f, e, Latest(events), cfg)
    ensures
      var k := if f.id.rule == PasswordSpray then Source(e.scope) else Pair(e.scope, e.user);
      EarliestCited(f.id.rule, sample, e, Seen(Latest(events), k, e, cfg))
    ensures forall i, j :: 0 <= i < j < |f.evidenceIds| ==> f.evidenceIds[i] != f.evidenceIds[j]
  {
    hide Canonical, Slice, Fires, Findings, Supported, Counted, Before, Latest, EarliestCited, Seen, Window;
    var s, all := Slice(Canonical(events), start - cfg.Window(), end), Latest(events);
    CanonicalOrder(events);
    SliceOrdered(Canonical(events), start - cfg.Window(), end);
    SliceElements(Canonical(events), start - cfg.Window(), end);
    forall x ensures x in Canonical(events) <==> x in all {
      assert x in Canonical(events) <==> x in Elements(Canonical(events));
    }
    var k := FindingOrigin(s, start, cfg, f);
    e := s[k];
    assert s[..k] + [e] == s[..k + 1];
    EligibleLatest(events, e);
    sample := FiringSupported(s[..k], e, cfg, f);
    forall x | x in s[..k + 1] ensures x in all { assert x in s; }
    SupportWidens(f, e, sample, Elements(s[..k + 1]), all, cfg);
    DistinctEvidence(f, e, sample, all, cfg);
    FiringCounted(s, k, all, cfg, f);
    RuleFires(s[..k], e, cfg, f);
    WindowOfRule(f.id.rule, s, k, all, cfg);
  }
}
