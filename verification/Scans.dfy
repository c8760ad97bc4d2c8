/** Scans against each other: splitting a range, adding events, reordering the input. */
module Scans {
  import opened AuthEvents
  import opened Windows
  import opened Rules
  import opened RuleIds

  lemma RangeSplits(id: FindingId, all: set<AuthEvent>, a: int, b: int, c: int, cfg: Settings)
    requires cfg.Valid() && a <= b <= c
    ensures Justified(id, all, a, c, cfg) <==> Justified(id, all, a, b, cfg) || Justified(id, all, b, c, cfg)
  {
    hide IdOf, Triggers;
  }

  /** Scanning [a, c) finds the ids of [a, b) and of [b, c), and no others. */
  lemma ScansCompose(events: seq<AuthEvent>, a: int, b: int, c: int, cfg: Settings)
    requires cfg.Valid() && a <= b <= c
    ensures Ids(Detections(events, a, c, cfg))
              == Ids(Detections(events, a, b, cfg)) + Ids(Detections(events, b, c, cfg))
  {
    hide Detections, Justified, Latest, Ids;
    forall id: FindingId
      ensures id in Ids(Detections(events, a, c, cfg)) <==>
              id in Ids(Detections(events, a, b, cfg)) || id in Ids(Detections(events, b, c, cfg))
    {
      DetectionsExact(events, a, c, cfg, id);
      DetectionsExact(events, a, b, cfg, id);
      DetectionsExact(events, b, c, cfg, id);
      RangeSplits(id, Latest(events), a, b, c, cfg);
    }
  }

  /** More events never retract an id. */
  lemma MoreEventsKeepIds(id: FindingId, all: set<AuthEvent>, more: set<AuthEvent>, start: int, end: int, cfg: Settings)
    requires cfg.Valid() && all <= more && Justified(id, all, start, end, cfg)
    ensures Justified(id, more, start, end, cfg)
  {
    hide IdOf;
    var e :| e in all && start <= e.ts < end && Triggers(id.rule, e, all, cfg) && id == IdOf(id.rule, e, cfg);
    TriggersMonotone(id.rule, e, all, more, cfg);
  }

  lemma TriggersMonotone(rule: Rule, e: AuthEvent, all: set<AuthEvent>, more: set<AuthEvent>, cfg: Settings)
    requires all <= more && Triggers(rule, e, all, cfg)
    ensures Triggers(rule, e, more, cfg)
  {
    var lo, pair, source := e.ts - cfg.Window(), Pair(e.scope, e.user), Source(e.scope);
    SubsetCount(FailuresUpTo(all, pair, lo, e.ts), FailuresUpTo(more, pair, lo, e.ts));
    SubsetCount(FailuresBefore(all, pair, lo, e.ts), FailuresBefore(more, pair, lo, e.ts));
    SubsetCount(UserSet(FailuresUpTo(all, source, lo, e.ts)), UserSet(FailuresUpTo(more, source, lo, e.ts)));
  }

  /** Scanned again with more events, evaluate still returns every finding id it returned before. */
  lemma MoreEventsKeepFindings(events: seq<AuthEvent>, more: seq<AuthEvent>, start: int, end: int, cfg: Settings)
    requires cfg.Valid() && Consistent(events + more)
    ensures Ids(Detections(events, start, end, cfg)) <= Ids(Detections(events + more, start, end, cfg))
  {
    hide Detections, Justified, Ids, Latest, Eligible;
    assert forall e :: e in events ==> e in events + more;
    LatestOfConsistent(events);
    LatestOfConsistent(events + more);
    forall id | id in Ids(Detections(events, start, end, cfg))
      ensures id in Ids(Detections(events + more, start, end, cfg))
    {
      DetectionsExact(events, start, end, cfg, id);
      MoreEventsKeepIds(id, Latest(events), Latest(events + more), start, end, cfg);
      DetectionsExact(events + more, start, end, cfg, id);
    }
  }

  /**
   * A scan depends on nothing but the eligible events of [start - window, end): whatever else is read, in whatever
   * order and however often, the findings are the same, with the same counts, evidence and order.
   */
  lemma OnlyWindowMatters(a: seq<AuthEvent>, b: seq<AuthEvent>, start: int, end: int, cfg: Settings)
    requires cfg.Valid() && Consistent(a) && Consistent(b)
    requires forall e :: Eligible(e) && start - cfg.Window() <= e.ts < end ==> (e in a <==> e in b)
    ensures Detections(a, start, end, cfg) == Detections(b, start, end, cfg)
  {
    hide Eligible, Canonical, Before, Findings, Slice, Identified, Sorted;
    var lo := start - cfg.Window();
    LatestOfConsistent(a);
    LatestOfConsistent(b);
    CanonicalOrder(a);
    CanonicalOrder(b);
    SliceOrdered(Canonical(a), lo, end);
    SliceOrdered(Canonical(b), lo, end);
    SliceElements(Canonical(a), lo, end);
    SliceElements(Canonical(b), lo, end);
    forall e ensures e in Slice(Canonical(a), lo, end) <==> e in Slice(Canonical(b), lo, end) {
      assert e in Elements(Canonical(a)) <==> e in Latest(a);
      assert e in Elements(Canonical(b)) <==> e in Latest(b);
    }
    SortedUnique(Slice(Canonical(a), lo, end), Slice(Canonical(b), lo, end));
  }

  /**
   * Reordering and duplicating the input changes nothing, evidence included, as long as equal ids
   * carry equal events.
   */
  lemma OrderAndCopiesIrrelevant(a: seq<AuthEvent>, b: seq<AuthEvent>, start: int, end: int, cfg: Settings)
    requires cfg.Valid() && Consistent(a) && Consistent(b)
    requires forall e :: Eligible(e) ==> (e in a <==> e in b)
    ensures Detections(a, start, end, cfg) == Detections(b, start, end, cfg)
  {
    hide Eligible, Detections;
    OnlyWindowMatters(a, b, start, end, cfg);
  }
}
