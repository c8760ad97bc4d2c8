/** The detection rules as documented, on events and plain numbers, and what evaluate makes of them. */
module RuleBook {
  import opened Text
  import opened AuthEvents
  import opened Windows
  import opened Rules
  import opened RuleIds

  // ---------------------------------------------------------------- intervals

  /** s is the whole seconds of ts, truncated toward zero. */
  predicate WholeSeconds(ts: int, s: int) {
    if ts >= 0 then s * 1_000_000 <= ts < (s + 1) * 1_000_000 else (s - 1) * 1_000_000 < ts <= s * 1_000_000
  }

  /** ts lies in the k-th interval of `width` seconds. */
  ghost predicate InInterval(ts: int, k: int, width: int) {
    exists s: int :: WholeSeconds(ts, s) && k * width <= s < (k + 1) * width
  }

  lemma SecondsUnique(ts: int, s: int, s': int)
    requires WholeSeconds(ts, s) && WholeSeconds(ts, s')
    ensures s == s'
  {
  }

  lemma IntervalUnique(s: int, k: int, k': int, width: int)
    requires width > 0 && k * width <= s < (k + 1) * width && k' * width <= s < (k' + 1) * width
    ensures k == k'
  {
    if k < k' { Widen(k + 1, k', width); }
    if k' < k { Widen(k' + 1, k, width); }
  }

  lemma Widen(a: int, b: int, width: int)
    requires a <= b && width > 0
    ensures a * width <= b * width
  {
    assert (b - a) * width >= 0;
  }

  /** Every instant lies in exactly one interval, and the bucket of a finding is its number. */
  lemma BucketExact(ts: int, width: int, k: int)
    requires width > 0
    ensures Bucket(ts, width) == k <==> InInterval(ts, k, width)
  {
    var s := if ts >= 0 then ts / 1_000_000 else -(-ts / 1_000_000);
    assert WholeSeconds(ts, s);
    var own := s / width;
    assert own * width <= s < (own + 1) * width;
    assert Bucket(ts, width) == own;
    if InInterval(ts, k, width) {
      var s' :| WholeSeconds(ts, s') && k * width <= s' < (k + 1) * width;
      SecondsUnique(ts, s, s');
      IntervalUnique(s, own, k, width);
    }
  }

  /** Two triggers share an identity exactly when rule, scope and user agree and one interval holds both. */
  lemma IdentitiesAgree(rule: Rule, a: AuthEvent, rule': Rule, b: AuthEvent, cfg: Settings)
    requires cfg.Valid()
    ensures IdOf(rule, a, cfg) == IdOf(rule', b, cfg) <==>
              && rule == rule' && a.scope == b.scope && (rule != PasswordSpray ==> a.user == b.user)
              && exists k: int :: InInterval(a.ts, k, cfg.windowSeconds) && InInterval(b.ts, k, cfg.windowSeconds)
  {
    hide InInterval, Bucket;
    forall k: int
      ensures InInterval(a.ts, k, cfg.windowSeconds) <==> Bucket(a.ts, cfg.windowSeconds) == k
      ensures InInterval(b.ts, k, cfg.windowSeconds) <==> Bucket(b.ts, cfg.windowSeconds) == k
    {
      BucketExact(a.ts, cfg.windowSeconds, k);
      BucketExact(b.ts, cfg.windowSeconds, k);
    }
    var i, j := Bucket(a.ts, cfg.windowSeconds), Bucket(b.ts, cfg.windowSeconds);
    assert InInterval(a.ts, i, cfg.windowSeconds) && InInterval(b.ts, j, cfg.windowSeconds);
  }

  // ---------------------------------------------------------------- the rules

  predicate Written(s: string) { exists c :: c in s && c !in WHITESPACE }

  /** A login attempt that names everything the rules go by. */
  predicate Attempt(e: AuthEvent) {
    && e.classUid == 3002 && e.activityId == 1 && (e.status == 1 || e.status == 2)
    && Written(e.id) && Written(e.scope.hostname) && Written(e.scope.service) && Written(e.scope.ip) && Written(e.user)
  }

  /** The failed attempts in e's scope in the window that ends with e. */
  ghost function FailedAttempts(events: seq<AuthEvent>, e: AuthEvent, cfg: Settings): set<AuthEvent> {
    set f | f in events && Attempt(f) && f.status == 2 && f.scope == e.scope
            && e.ts - cfg.windowSeconds * 1_000_000 <= f.ts <= e.ts
  }

  ghost predicate SetsOff(rule: Rule, e: AuthEvent, events: seq<AuthEvent>, cfg: Settings) {
    var failed := FailedAttempts(events, e, cfg);
    match rule
    case RepeatedFailures =>
      e.status == 2 && |set f | f in failed && f.user == e.user| >= cfg.failureThreshold
    case PasswordSpray =>
      e.status == 2 && |set f | f in failed :: f.user| >= cfg.sprayThreshold
    case SuccessAfterFailures =>
      e.status == 1 && |set f | f in failed && f.user == e.user && f.ts < e.ts| >= cfg.failureThreshold
  }

  lemma AttemptIsEligible(e: AuthEvent)
    ensures Attempt(e) <==> Eligible(e)
  {
    hide IsSpace, WHITESPACE;
    WrittenIsNotBlank(e.id);
    WrittenIsNotBlank(e.scope.hostname);
    WrittenIsNotBlank(e.scope.service);
    WrittenIsNotBlank(e.scope.ip);
    WrittenIsNotBlank(e.user);
  }

  lemma WrittenIsNotBlank(s: string)
    ensures Written(s) <==> !Blank(s)
  {
    hide IsSpace, WHITESPACE;
    forall c ensures IsSpace(c) <==> c in WHITESPACE { SpaceExact(c); }
    assert forall i :: 0 <= i < |s| ==> s[i] in s;
  }

  lemma SetsOffIsTriggers(rule: Rule, e: AuthEvent, events: seq<AuthEvent>, cfg: Settings)
    requires Attempt(e)
    ensures SetsOff(rule, e, events, cfg) <==> Triggers(rule, e, (set f | f in events && Eligible(f)), cfg)
  {
    hide Attempt, Eligible;
    AttemptIsEligible(e);
    assert e.status == 1 || e.status == 2 by { StatusOf(e); }
    forall f ensures Attempt(f) <==> Eligible(f) { AttemptIsEligible(f); }
    var all, failed := (set f | f in events && Eligible(f)), FailedAttempts(events, e, cfg);
    var lo := e.ts - cfg.Window();
    var pair, source := Pair(e.scope, e.user), Source(e.scope);
    assert (set f | f in failed && f.user == e.user) == FailuresUpTo(all, pair, lo, e.ts);
    assert (set f | f in failed && f.user == e.user && f.ts < e.ts) == FailuresBefore(all, pair, lo, e.ts);
    assert failed == FailuresUpTo(all, source, lo, e.ts);
    assert (set f | f in failed :: f.user) == UserSet(FailuresUpTo(all, source, lo, e.ts));
  }

  lemma StatusOf(e: AuthEvent)
    requires Attempt(e)
    ensures e.status == 1 || e.status == 2
  {
  }

  /** The finding's identity says: this rule, under these settings, set off by e. */
  ghost predicate Names(id: FindingId, e: AuthEvent, cfg: Settings) {
    && id.windowSeconds == cfg.windowSeconds
    && id.threshold == (if id.rule == PasswordSpray then cfg.sprayThreshold else cfg.failureThreshold)
    && id.scope == e.scope && id.subject == (if id.rule == PasswordSpray then "" else e.user)
    && InInterval(e.ts, id.bucket, cfg.windowSeconds)
  }

  lemma NamesIsIdOf(id: FindingId, e: AuthEvent, cfg: Settings)
    requires cfg.Valid()
    ensures Names(id, e, cfg) <==> id == IdOf(id.rule, e, cfg)
  {
    hide InInterval, Bucket;
    BucketExact(e.ts, cfg.windowSeconds, id.bucket);
  }

  /**
   * The documented rules decide the findings: evaluate returns one for a rule, a subject and an interval exactly
   * when some login attempt of the scan range in that interval sets off the rule.
   */
  lemma DetectionsDocumented(events: seq<AuthEvent>, start: int, end: int, cfg: Settings, id: FindingId)
    requires cfg.Valid() && Consistent(events)
    ensures (exists f :: f in Detections(events, start, end, cfg) && f.id == id) <==>
              exists e :: e in events && Attempt(e) && start <= e.ts < end
                          && SetsOff(id.rule, e, events, cfg) && Names(id, e, cfg)
  {
    hide Detections, Attempt, Eligible, SetsOff, Triggers, Names, IdOf, Latest, Consistent;
    DetectionsExact(events, start, end, cfg, id);
    LatestOfConsistent(events);
    forall e: AuthEvent
      ensures Attempt(e) <==> Eligible(e)
      ensures Attempt(e) ==> (SetsOff(id.rule, e, events, cfg) <==> Triggers(id.rule, e, Latest(events), cfg))
      ensures Names(id, e, cfg) <==> id == IdOf(id.rule, e, cfg)
    {
      AttemptIsEligible(e);
      if Attempt(e) { SetsOffIsTriggers(id.rule, e, events, cfg); }
      NamesIsIdOf(id, e, cfg);
    }
  }

  /** Attacks in two intervals give two findings, whatever else agrees. */
  lemma TwoIntervalsTwoFindings(events: seq<AuthEvent>, start: int, end: int, cfg: Settings, rule: Rule,
                                a: AuthEvent, b: AuthEvent)
      returns (f: Finding, g: Finding)
    requires cfg.Valid() && Consistent(events) && a in events && b in events && Attempt(a) && Attempt(b)
    requires start <= a.ts < end && start <= b.ts < end
    requires SetsOff(rule, a, events, cfg) && SetsOff(rule, b, events, cfg)
    requires !exists k: int :: InInterval(a.ts, k, cfg.windowSeconds) && InInterval(b.ts, k, cfg.windowSeconds)
    ensures f in Detections(events, start, end, cfg) && g in Detections(events, start, end, cfg) && f.id != g.id
    ensures f.id.rule == g.id.rule == rule && Names(f.id, a, cfg) && Names(g.id, b, cfg)
  {
    hide Detections, Attempt, SetsOff, Names, IdOf, Consistent, InInterval;
    var i, j := IdOf(rule, a, cfg), IdOf(rule, b, cfg);
    RuleOfId(rule, a, cfg);
    RuleOfId(rule, b, cfg);
    NamesIsIdOf(i, a, cfg);
    NamesIsIdOf(j, b, cfg);
    IdentitiesAgree(rule, a, rule, b, cfg);
    DetectionsDocumented(events, start, end, cfg, i);
    DetectionsDocumented(events, start, end, cfg, j);
    f :| f in Detections(events, start, end, cfg) && f.id == i;
    g :| g in Detections(events, start, end, cfg) && g.id == j;
  }

  lemma RuleOfId(rule: Rule, e: AuthEvent, cfg: Settings)
    requires cfg.Valid()
    ensures IdOf(rule, e, cfg).rule == rule
  {
  }
}
