/** Which finding ids a scan emits, stated on sets of events without any order. */
module RuleIds {
  import opened AuthEvents
  import opened Windows
  import opened Rules

  ghost function FailuresUpTo(all: set<AuthEvent>, k: Subject, lo: int, t: int): set<AuthEvent> {
    set f | f in all && IsFailure(k, f) && lo <= f.ts <= t
  }

  ghost function FailuresBefore(all: set<AuthEvent>, k: Subject, lo: int, t: int): set<AuthEvent> {
    set f | f in all && IsFailure(k, f) && lo <= f.ts < t
  }

  ghost function UserSet(all: set<AuthEvent>): set<string> {
    set f | f in all :: f.user
  }

  /** The rule as documented: e sets it off among the given events. */
  ghost predicate Triggers(rule: Rule, e: AuthEvent, all: set<AuthEvent>, cfg: Settings) {
    var lo := e.ts - cfg.Window();
    match rule
    case RepeatedFailures =>
      e.status == FAILURE && |FailuresUpTo(all, Pair(e.scope, e.user), lo, e.ts)| >= cfg.failureThreshold
    case PasswordSpray =>
      e.status == FAILURE && |UserSet(FailuresUpTo(all, Source(e.scope), lo, e.ts))| >= cfg.sprayThreshold
    case SuccessAfterFailures =>
      e.status != FAILURE && |FailuresBefore(all, Pair(e.scope, e.user), lo, e.ts)| >= cfg.failureThreshold
  }

  /** Some event in [start, end) sets off the rule of `id` and has that identity. */
  ghost predicate Justified(id: FindingId, all: set<AuthEvent>, start: int, end: int, cfg: Settings)
    requires cfg.Valid()
  {
    exists e :: e in all && start <= e.ts < end && Triggers(id.rule, e, all, cfg) && id == IdOf(id.rule, e, cfg)
  }

  /** The condition that evaluate checks at e, reading only the events before it. */
  ghost predicate FiresAt(rule: Rule, past: seq<AuthEvent>, e: AuthEvent, cfg: Settings) {
    var lo := e.ts - cfg.Window();
    match rule
    case RepeatedFailures =>
      e.status == FAILURE && |Failures(past, Pair(e.scope, e.user), lo)| + 1 >= cfg.failureThreshold
    case PasswordSpray =>
      e.status == FAILURE && |UsersOf(Failures(past, Source(e.scope), lo) + [e])| >= cfg.sprayThreshold
    case SuccessAfterFailures =>
      e.status != FAILURE && EarlierThan(Failures(past, Pair(e.scope, e.user), lo), e.ts) >= cfg.failureThreshold
  }

  lemma IdsOfTwo(a: seq<Finding>, b: seq<Finding>)
    ensures Ids(a + b) == Ids(a) + Ids(b)
  {
  }

  lemma FiresIds(past: seq<AuthEvent>, e: AuthEvent, cfg: Settings, id: FindingId)
    requires cfg.Valid()
    ensures id in Ids(Fires(past, e, cfg)) <==> FiresAt(id.rule, past, e, cfg) && id == IdOf(id.rule, e, cfg)
  {
    hide Sample, Representatives, EventIds, UsersOf, Failures, EarlierThan;
    var lo := e.ts - cfg.Window();
    var own := Failures(past, Pair(e.scope, e.user), lo);
    if e.status == FAILURE {
      var mine, all := own + [e], Failures(past, Source(e.scope), lo) + [e];
      var a := if |mine| >= cfg.failureThreshold then [Emission(RepeatedFailures, e, mine, |mine|, cfg)] else [];
      var b := if |UsersOf(all)| >= cfg.sprayThreshold then [Emission(PasswordSpray, e, all, |all|, cfg)] else [];
      assert Fires(past, e, cfg) == a + b;
      IdsOfTwo(a, b);
    }
  }

  lemma {:induction false} AddAllIds(fs: seq<Finding>, more: seq<Finding>)
    ensures Ids(AddAll(fs, more)) == Ids(fs) + Ids(more)
    decreases |more|
  {
    if more != [] {
      AddAllIds(Add(fs, more[0]), more[1..]);
      assert more == [more[0]] + more[1..];
      IdsOfTwo(fs, [more[0]]);
    }
  }

  lemma {:induction false} FindingsIds(s: seq<AuthEvent>, start: int, cfg: Settings, id: FindingId)
    requires cfg.Valid()
    ensures id in Ids(Findings(s, start, cfg)) <==>
            exists k :: 0 <= k < |s| && start <= s[k].ts && FiresAt(id.rule, s[..k], s[k], cfg)
              && id == IdOf(id.rule, s[k], cfg)
  {
    hide Fires, FiresAt, IdOf, AddAll;
    if s != [] {
      var n := |s| - 1;
      FindingsIds(s[..n], start, cfg, id);
      FiresIds(s[..n], s[n], cfg, id);
      AddAllIds(Findings(s[..n], start, cfg), if start <= s[n].ts then Fires(s[..n], s[n], cfg) else []);
      assert forall k :: 0 <= k < n ==> s[..n][..k] == s[..k] && s[..n][k] == s[k];
    }
  }

  // ---------------------------------------------------------------- counting

  ghost predicate Distinct(s: seq<AuthEvent>) {
    forall i, j :: 0 <= i < j < |s| ==> s[i] != s[j]
  }

  lemma {:induction false} DistinctCount(s: seq<AuthEvent>)
    requires Distinct(s)
    ensures |Elements(s)| == |s|
  {
    if s != [] {
      var n := |s| - 1;
      DistinctCount(s[..n]);
      assert s == s[..n] + [s[n]];
      assert Elements(s) == Elements(s[..n]) + {s[n]};
    }
  }

  lemma {:induction false} FailuresDistinct(s: seq<AuthEvent>, k: Subject, cutoff: int)
    requires Distinct(s)
    ensures Distinct(Failures(s, k, cutoff))
  {
    if s != [] {
      var n := |s| - 1;
      FailuresDistinct(s[..n], k, cutoff);
      FailuresElements(s[..n], k, cutoff);
      assert forall e :: e in s[..n] ==> e != s[n];
    }
  }

  lemma {:induction false} EarlierCount(s: seq<AuthEvent>, t: int)
    requires Distinct(s)
    ensures EarlierThan(s, t) == |set f | f in s && f.ts < t|
  {
    if s != [] {
      var n := |s| - 1;
      EarlierCount(s[..n], t);
      assert s == s[..n] + [s[n]];
      var before := set f | f in s[..n] && f.ts < t;
      if s[n].ts < t {
        assert s[n] !in before;
        assert (set f | f in s && f.ts < t) == before + {s[n]};
      } else {
        assert (set f | f in s && f.ts < t) == before;
      }
    }
  }

  lemma SubsetCount<T>(a: set<T>, b: set<T>)
    requires a <= b
    ensures |a| <= |b|
  {
    assert b == a + (b - a);
  }

  // ---------------------------------------------------------------- soundness

  /** The window before index m: distinct failures of the whole sequence, none after e. */
  lemma PastWindow(s: seq<AuthEvent>, m: nat, k: Subject, lo: int)
    requires m < |s| && InTime(s) && Distinct(s)
    ensures var w := Failures(s[..m], k, lo);
            && Distinct(w) && Distinct(w + [s[m]])
            && (forall f :: f in w ==> f in Elements(s) && IsFailure(k, f) && lo <= f.ts <= s[m].ts)
            && (forall f :: f in Elements(w) <==> f in w)
            && (forall f :: f in Elements(w + [s[m]]) <==> f in w || f == s[m])
            && s[m] in Elements(s)
  {
    hide Failures;
    FailuresElements(s[..m], k, lo);
    FailuresDistinct(s[..m], k, lo);
    assert forall f :: f in s[..m] ==> f in s && f.ts <= s[m].ts && f != s[m];
  }

  /** What evaluate sees at index m is part of what the declarative rule counts. */
  lemma FiredIsTriggered(rule: Rule, s: seq<AuthEvent>, m: nat, cfg: Settings)
    requires m < |s| && InTime(s) && Distinct(s)
    requires FiresAt(rule, s[..m], s[m], cfg) && cfg.Valid()
    ensures Triggers(rule, s[m], Elements(s), cfg)
  {
    hide Failures, EarlierThan, InTime, Distinct, Elements;
    var e, all, lo := s[m], Elements(s), s[m].ts - cfg.Window();
    var k := if rule == PasswordSpray then Source(e.scope) else Pair(e.scope, e.user);
    var w := Failures(s[..m], k, lo);
    PastWindow(s, m, k, lo);
    match rule
    case RepeatedFailures =>
      DistinctCount(w + [e]);
      SubsetCount(Elements(w + [e]), FailuresUpTo(all, k, lo, e.ts));
    case PasswordSpray =>
      SubsetCount(UsersOf(w + [e]), UserSet(FailuresUpTo(all, k, lo, e.ts)));
    case SuccessAfterFailures =>
      EarlierCount(w, e.ts);
      SubsetCount((set f | f in w && f.ts < e.ts), FailuresBefore(all, k, lo, e.ts));
  }

  // ---------------------------------------------------------------- completeness

  /** The last failure of k that shares the timestamp of s[i]. */
  lemma LastTie(s: seq<AuthEvent>, k: Subject, i: nat) returns (m: nat)
    requires i < |s| && IsFailure(k, s[i])
    ensures i <= m < |s| && IsFailure(k, s[m]) && s[m].ts == s[i].ts
    ensures forall j :: m < j < |s| && s[j].ts == s[i].ts ==> !IsFailure(k, s[j])
    decreases |s| - i
  {
    if j :| i < j < |s| && s[j].ts == s[i].ts && IsFailure(k, s[j]) {
      m := LastTie(s, k, j);
    } else {
      m := i;
    }
  }

  /** At the last tie the prefix holds every failure up to that timestamp. */
  lemma LastTieSeesAll(s: seq<AuthEvent>, k: Subject, m: nat, lo: int)
    requires m < |s| && InTime(s) && IsFailure(k, s[m]) && lo <= s[m].ts
    requires forall j :: m < j < |s| && s[j].ts == s[m].ts ==> !IsFailure(k, s[j])
    ensures Elements(Failures(s[..m], k, lo) + [s[m]]) == FailuresUpTo(Elements(s), k, lo, s[m].ts)
  {
    FailuresElements(s[..m], k, lo);
    forall f | f in s && IsFailure(k, f) && f.ts <= s[m].ts
      ensures f in s[..m] || f == s[m]
    {
      var j :| 0 <= j < |s| && s[j] == f;
      if j < m { assert f == s[..m][j]; }
    }
    assert forall f :: f in s[..m] ==> f in s && f.ts <= s[m].ts;
  }

  /** A success sees every strictly earlier failure of its pair. */
  lemma SuccessIsFired(s: seq<AuthEvent>, m: nat, cfg: Settings)
    requires m < |s| && InTime(s) && Distinct(s)
    requires Triggers(SuccessAfterFailures, s[m], Elements(s), cfg)
    ensures FiresAt(SuccessAfterFailures, s[..m], s[m], cfg)
  {
    hide Failures, EarlierThan, InTime, Distinct, Elements, FailuresBefore;
    var e, lo := s[m], s[m].ts - cfg.Window();
    var k := Pair(e.scope, e.user);
    PastWindow(s, m, k, lo);
    EarlierCount(Failures(s[..m], k, lo), e.ts);
    EarlierWindow(s, m, k, lo);
  }

  lemma EarlierWindow(s: seq<AuthEvent>, m: nat, k: Subject, lo: int)
    requires m < |s| && InTime(s)
    ensures (set f | f in Failures(s[..m], k, lo) && f.ts < s[m].ts) == FailuresBefore(Elements(s), k, lo, s[m].ts)
  {
    hide Failures;
    FailuresElements(s[..m], k, lo);
    forall f | f in s && f.ts < s[m].ts ensures f in s[..m] {
      var j :| 0 <= j < |s| && s[j] == f;
      assert f == s[..m][j];
    }
    assert forall f :: f in s[..m] ==> f in s;
  }

  /** A failure rule that holds at s[i] fires at the last tie m. */
  lemma FailureIsFired(rule: Rule, s: seq<AuthEvent>, i: nat, m: nat, cfg: Settings)
    requires i <= m < |s| && InTime(s) && Distinct(s) && cfg.Valid()
    requires rule != SuccessAfterFailures && Triggers(rule, s[i], Elements(s), cfg)
    requires s[m].ts == s[i].ts && s[m].scope == s[i].scope && (rule == RepeatedFailures ==> s[m].user == s[i].user)
    requires var k := if rule == PasswordSpray then Source(s[i].scope) else Pair(s[i].scope, s[i].user);
             IsFailure(k, s[m]) && forall j :: m < j < |s| && s[j].ts == s[m].ts ==> !IsFailure(k, s[j])
    ensures FiresAt(rule, s[..m], s[m], cfg)
  {
    hide Failures;
    var e, lo := s[i], s[i].ts - cfg.Window();
    var k := if rule == PasswordSpray then Source(e.scope) else Pair(e.scope, e.user);
    var w := Failures(s[..m], k, lo);
    LastTieSeesAll(s, k, m, lo);
    if rule == RepeatedFailures {
      FailuresDistinct(s[..m], k, lo);
      FailuresElements(s[..m], k, lo);
      assert forall f :: f in s[..m] ==> f != s[m];
      DistinctCount(w + [s[m]]);
    } else {
      assert UsersOf(w + [s[m]]) == UserSet(Elements(w + [s[m]]));
    }
  }

  /** Every event that sets off a rule has a tie at which evaluate fires it, with the same identity. */
  lemma TriggeredIsFired(rule: Rule, s: seq<AuthEvent>, i: nat, cfg: Settings) returns (m: nat)
    requires i < |s| && InTime(s) && Distinct(s) && cfg.Valid()
    requires Triggers(rule, s[i], Elements(s), cfg)
    ensures m < |s| && s[m].ts == s[i].ts
    ensures FiresAt(rule, s[..m], s[m], cfg) && IdOf(rule, s[m], cfg) == IdOf(rule, s[i], cfg)
  {
    hide FiresAt;
    if rule == SuccessAfterFailures {
      m := i;
      SuccessIsFired(s, m, cfg);
    } else {
      m := LastTie(s, if rule == PasswordSpray then Source(s[i].scope) else Pair(s[i].scope, s[i].user), i);
      FailureIsFired(rule, s, i, m, cfg);
    }
  }

  /** A run over sorted distinct events emits exactly the ids justified from `start` on. */
  lemma FindingsExact(s: seq<AuthEvent>, start: int, end: int, cfg: Settings, id: FindingId)
    requires cfg.Valid() && InTime(s) && Distinct(s) && (forall e :: e in s ==> e.ts < end)
    ensures id in Ids(Findings(s, start, cfg)) <==> Justified(id, Elements(s), start, end, cfg)
  {
    hide Failures, FiresAt, IdOf, Findings, Triggers;
    FindingsIds(s, start, cfg, id);
    if id in Ids(Findings(s, start, cfg)) {
      var k :| 0 <= k < |s| && start <= s[k].ts && FiresAt(id.rule, s[..k], s[k], cfg)
        && id == IdOf(id.rule, s[k], cfg);
      FiredIsTriggered(id.rule, s, k, cfg);
      assert s[k] in Elements(s);
    }
    if Justified(id, Elements(s), start, end, cfg) {
      var e :| e in Elements(s) && start <= e.ts < end && Triggers(id.rule, e, Elements(s), cfg)
        && id == IdOf(id.rule, e, cfg);
      var i :| 0 <= i < |s| && s[i] == e;
      var m := TriggeredIsFired(id.rule, s, i, cfg);
    }
  }

  /** Restricting the events to one window before `start` changes nothing. */
  lemma ContextSuffices(id: FindingId, all: set<AuthEvent>, part: set<AuthEvent>, start: int, end: int, cfg: Settings)
    requires cfg.Valid()
    requires part <= all && forall e :: e in all && start - cfg.Window() <= e.ts < end ==> e in part
    ensures Justified(id, part, start, end, cfg) <==> Justified(id, all, start, end, cfg)
  {
    hide IdOf;
    forall e | e in all && start <= e.ts < end
      ensures Triggers(id.rule, e, part, cfg) <==> Triggers(id.rule, e, all, cfg)
    {
      var lo := e.ts - cfg.Window();
      forall k: Subject
        ensures FailuresUpTo(part, k, lo, e.ts) == FailuresUpTo(all, k, lo, e.ts)
        ensures FailuresBefore(part, k, lo, e.ts) == FailuresBefore(all, k, lo, e.ts)
      {
      }
    }
  }

  lemma SortedDistinct(s: seq<AuthEvent>)
    requires Identified(s)
    ensures Distinct(s)
  {
  }

  lemma {:induction false} SliceDistinct(s: seq<AuthEvent>, lo: int, hi: int)
    requires Distinct(s)
    ensures Distinct(Slice(s, lo, hi))
  {
    if s != [] {
      var n := |s| - 1;
      SliceDistinct(s[..n], lo, hi);
      SliceElements(s[..n], lo, hi);
      assert forall e :: e in s[..n] ==> e != s[n];
    }
  }

  /**
   * evaluate emits an id if and only if an eligible event of the scan range justifies it among all
   * surviving events, in whatever order and multiplicity they were given.
   */
  lemma DetectionsExact(events: seq<AuthEvent>, start: int, end: int, cfg: Settings, id: FindingId)
    requires cfg.Valid()
    ensures id in Ids(Detections(events, start, end, cfg)) <==> Justified(id, Latest(events), start, end, cfg)
  {
    hide Failures, FiresAt, IdOf, Findings, Triggers, Slice, Canonical, Justified, Latest;
    var ordered, lo := Canonical(events), start - cfg.Window();
    var s := Slice(ordered, lo, end);
    CanonicalOrder(events);
    CanonicalInTime(events);
    SortedDistinct(ordered);
    SliceInTime(ordered, lo, end);
    SliceElements(ordered, lo, end);
    SliceDistinct(ordered, lo, end);
    FindingsExact(s, start, end, cfg, id);
    ContextSuffices(id, Latest(events), Elements(s), start, end, cfg);
  }

  /** At most one finding per rule, subject and bucket. */
  ghost predicate OnePerId(fs: seq<Finding>) {
    forall i, j :: 0 <= i < j < |fs| ==> fs[i].id != fs[j].id
  }

  lemma {:induction false} AddAllOnePerId(fs: seq<Finding>, more: seq<Finding>)
    requires OnePerId(fs)
    ensures OnePerId(AddAll(fs, more))
    decreases |more|
  {
    if more != [] {
      assert forall f :: f in fs ==> f.id in Ids(fs);
      AddAllOnePerId(Add(fs, more[0]), more[1..]);
    }
  }

  lemma {:induction false} FindingsOnePerId(s: seq<AuthEvent>, start: int, cfg: Settings)
    requires cfg.Valid()
    ensures OnePerId(Findings(s, start, cfg))
  {
    hide Fires, AddAll;
    if s != [] {
      var n := |s| - 1;
      FindingsOnePerId(s[..n], start, cfg);
      AddAllOnePerId(Findings(s[..n], start, cfg), if start <= s[n].ts then Fires(s[..n], s[n], cfg) else []);
    }
  }
}
