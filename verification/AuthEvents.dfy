/** Authentication events and the one order in which the rules read them. */
module AuthEvents {
  import opened Text

  datatype Scope = Scope(hostname: string, service: string, ip: string)

  /**
   * A row of application_logs as the rules see it. Time counts microseconds from the epoch.
   * A NULL identity column is the empty string here: both make the event ineligible.
   */
  datatype AuthEvent = AuthEvent(
    id: string,
    ts: int,
    scope: Scope,
    user: string,
    status: int,
    classUid: int,
    activityId: int)

  const SUCCESS := 1
  const FAILURE := 2

  predicate Eligible(e: AuthEvent) {
    && e.classUid == 3002 && e.activityId == 1 && e.status in {SUCCESS, FAILURE}
    && !Blank(e.id) && !Blank(e.scope.hostname) && !Blank(e.scope.service) && !Blank(e.scope.ip) && !Blank(e.user)
  }

  /** The sort key (timestamp, event_id). */
  predicate Before(a: AuthEvent, b: AuthEvent) {
    a.ts < b.ts || (a.ts == b.ts && LexLess(a.id, b.id))
  }

  ghost predicate Sorted(s: seq<AuthEvent>) {
    forall i, j :: 0 <= i < j < |s| ==> Before(s[i], s[j])
  }

  /** The weaker order that the windows need. */
  ghost predicate InTime(s: seq<AuthEvent>) {
    forall i, j :: 0 <= i < j < |s| ==> s[i].ts <= s[j].ts
  }

  /** No two events carry the same id. */
  ghost predicate Identified(s: seq<AuthEvent>) {
    forall i, j :: 0 <= i < j < |s| ==> s[i].id != s[j].id
  }

  ghost function Elements(s: seq<AuthEvent>): set<AuthEvent> {
    set e | e in s
  }

  function Without(s: seq<AuthEvent>, id: string): seq<AuthEvent> {
    if s == [] then []
    else (if s[0].id == id then [] else [s[0]]) + Without(s[1..], id)
  }

  function Insert(s: seq<AuthEvent>, e: AuthEvent): seq<AuthEvent> {
    if s == [] || Before(e, s[0]) then [e] + s
    else [s[0]] + Insert(s[1..], e)
  }

  /** The eligible events, the last one for each id, sorted by key. */
  function Canonical(events: seq<AuthEvent>): seq<AuthEvent> {
    if events == [] then []
    else
      var n := |events| - 1;
      var rest := Canonical(events[..n]);
      if Eligible(events[n]) then Insert(Without(rest, events[n].id), events[n]) else rest
  }

  /** The events that survive keying by id: the last eligible occurrence of each. */
  ghost function Latest(events: seq<AuthEvent>): set<AuthEvent> {
    set i | 0 <= i < |events| && Survives(events, i) :: events[i]
  }

  ghost predicate Survives(events: seq<AuthEvent>, i: nat)
    requires i < |events|
  {
    && Eligible(events[i])
    && forall j :: i < j < |events| && Eligible(events[j]) ==> events[j].id != events[i].id
  }

  lemma BeforeTransitive(a: AuthEvent, b: AuthEvent, c: AuthEvent)
    requires Before(a, b) && Before(b, c)
    ensures Before(a, c)
  {
    if a.ts == b.ts && b.ts == c.ts { LexTransitive(a.id, b.id, c.id); }
  }

  lemma SortedTail(s: seq<AuthEvent>)
    requires s != [] && Sorted(s) && Identified(s)
    ensures Sorted(s[1..]) && Identified(s[1..])
    ensures forall x :: x in s[1..] ==> Before(s[0], x) && s[0].id != x.id
    ensures forall x :: x in s <==> x == s[0] || x in s[1..]
  {
    hide Before;
    assert s == [s[0]] + s[1..];
  }

  lemma SortedCons(e: AuthEvent, s: seq<AuthEvent>)
    requires Sorted(s) && Identified(s)
    requires forall x :: x in s ==> Before(e, x) && e.id != x.id
    ensures Sorted([e] + s) && Identified([e] + s)
    ensures forall x :: x in [e] + s <==> x == e || x in s
  {
    hide Before;
  }

  lemma {:induction false} WithoutSorted(s: seq<AuthEvent>, id: string)
    requires Sorted(s) && Identified(s)
    ensures Sorted(Without(s, id)) && Identified(Without(s, id))
    ensures forall e :: e in Without(s, id) <==> e in s && e.id != id
  {
    hide Before, Sorted, Identified;
    if s != [] {
      SortedTail(s);
      var rest := Without(s[1..], id);
      WithoutSorted(s[1..], id);
      SortedCons(s[0], rest);
      assert [] + rest == rest;
    }
  }

  lemma BeforeTotal(a: AuthEvent, b: AuthEvent)
    requires a.id != b.id
    ensures Before(a, b) || Before(b, a)
  {
    LexTotal(a.id, b.id);
  }

  lemma {:induction false} InsertSorted(s: seq<AuthEvent>, e: AuthEvent)
    requires Sorted(s) && Identified(s)
    requires forall x :: x in s ==> x.id != e.id
    ensures Sorted(Insert(s, e)) && Identified(Insert(s, e))
    ensures forall x :: x in Insert(s, e) <==> x in s || x == e
  {
    hide Before, Sorted, Identified;
    if s == [] {
      SortedCons(e, s);
    } else {
      SortedTail(s);
      if Before(e, s[0]) {
        forall x | x in s ensures Before(e, x) {
          if x != s[0] { BeforeTransitive(e, s[0], x); }
        }
        SortedCons(e, s);
      } else {
        BeforeTotal(e, s[0]);
        InsertSorted(s[1..], e);
        SortedCons(s[0], Insert(s[1..], e));
      }
    }
  }

  lemma NothingSorted()
    ensures Sorted([]) && Identified([])
  {
  }

  lemma SortedFront(front: seq<AuthEvent>, e: AuthEvent)
    requires Sorted(front + [e]) && Identified(front + [e])
    ensures Sorted(front) && Identified(front)
    ensures forall x :: x in front ==> Before(x, e) && x.id != e.id
  {
    hide Before;
    var s := front + [e];
    assert forall i :: 0 <= i < |front| ==> front[i] == s[i];
    assert s[|front|] == e;
  }

  lemma SortedSnoc(s: seq<AuthEvent>, e: AuthEvent)
    requires Sorted(s) && Identified(s) && forall x :: x in s ==> Before(x, e) && x.id != e.id
    ensures Sorted(s + [e]) && Identified(s + [e])
  {
    hide Before;
    forall i, j | 0 <= i < j < |s + [e]|
      ensures Before((s + [e])[i], (s + [e])[j]) && (s + [e])[i].id != (s + [e])[j].id
    {
      assert s[i] in s;
    }
  }

  /** Canonical order: sorted, one event per id, and exactly the surviving events. */
  lemma {:induction false} CanonicalOrder(events: seq<AuthEvent>)
    ensures Sorted(Canonical(events)) && Identified(Canonical(events))
    ensures Elements(Canonical(events)) == Latest(events)
  {
    hide Eligible, Before, Sorted, Identified;
    if events == [] {
      NothingSorted();
    } else {
      var n := |events| - 1;
      var front, e := events[..n], events[n];
      CanonicalOrder(front);
      assert forall i :: 0 <= i < n ==> front[i] == events[i];
      assert forall x :: x in Latest(front) ==> x in Canonical(front) by {
        assert Latest(front) == Elements(Canonical(front));
      }
      assert forall x :: x in Canonical(front) ==> x in Latest(front) by {
        assert Latest(front) == Elements(Canonical(front));
      }
      if Eligible(e) {
        WithoutSorted(Canonical(front), e.id);
        InsertSorted(Without(Canonical(front), e.id), e);
        forall x ensures x in Latest(events) <==> (x in Latest(front) && x.id != e.id) || x == e {
          LatestSnoc(events, x);
        }
      } else {
        forall x ensures x in Latest(events) <==> x in Latest(front) {
          LatestSnoc(events, x);
        }
      }
    }
  }

  /** By time, and events of one instant by id. */
  lemma CanonicalByKey(events: seq<AuthEvent>)
    ensures forall i, j :: 0 <= i < j < |Canonical(events)| ==>
              var a, b := Canonical(events)[i], Canonical(events)[j];
              a.ts < b.ts || (a.ts == b.ts && LexLess(a.id, b.id))
  {
    hide Canonical;
    CanonicalOrder(events);
  }

  lemma CanonicalInTime(events: seq<AuthEvent>)
    ensures InTime(Canonical(events))
  {
    CanonicalOrder(events);
  }

  lemma SurvivesSnoc(events: seq<AuthEvent>, i: nat)
    requires i < |events|
    ensures
      var n := |events| - 1;
      Survives(events, i) <==>
      if i == n then Eligible(events[n])
      else Survives(events[..n], i) && (Eligible(events[n]) ==> events[i].id != events[n].id)
  {
    hide Eligible;
    var n := |events| - 1;
    assert forall j :: 0 <= j < n ==> events[..n][j] == events[j];
  }

  lemma LatestSnoc(events: seq<AuthEvent>, x: AuthEvent)
    requires events != []
    ensures var n := |events| - 1;
            x in Latest(events) <==>
            if Eligible(events[n]) then (x in Latest(events[..n]) && x.id != events[n].id) || x == events[n]
            else x in Latest(events[..n])
  {
    hide Eligible, Survives;
    var n := |events| - 1;
    var front, e := events[..n], events[n];
    forall i: nat | i <= n
      ensures Survives(events, i) <==>
        if i == n then Eligible(e) else Survives(front, i) && (Eligible(e) ==> events[i].id != e.id)
    {
      SurvivesSnoc(events, i);
    }
    if x in Latest(events) {
      var i :| 0 <= i < |events| && Survives(events, i) && events[i] == x;
      if i < n { assert front[i] == x && Survives(front, i); }
    }
    if x in Latest(front) && (Eligible(e) ==> x.id != e.id) {
      var i :| 0 <= i < |front| && Survives(front, i) && front[i] == x;
      assert events[i] == x && Survives(events, i);
    }
    if x == e && Eligible(e) {
      assert Survives(events, n);
    }
  }

  lemma NoElements(s: seq<AuthEvent>)
    ensures s == [] <==> Elements(s) == {}
  {
    if s != [] { assert s[0] in Elements(s); }
  }

  /** A sorted sequence is determined by its elements. */
  lemma {:induction false} SortedUnique(a: seq<AuthEvent>, b: seq<AuthEvent>)
    requires Sorted(a) && Sorted(b) && Elements(a) == Elements(b)
    ensures a == b
  {
    forall x: AuthEvent ensures !Before(x, x) { LexIrreflexive(x.id); }
    if a == [] {
      NoElements(b);
    } else {
      assert a[0] in Elements(a);
      assert b != [];
      assert b[0] in Elements(b);
      if a[0] != b[0] {
        assert a[0] in b && b[0] in a;
        BeforeTransitive(a[0], b[0], a[0]);
        assert false;
      }
      forall x ensures x in a[1..] <==> x in b[1..] {
        assert x in a <==> x in Elements(a);
        assert x in b <==> x in Elements(b);
        assert a == [a[0]] + a[1..] && b == [b[0]] + b[1..];
      }
      assert Elements(a[1..]) == Elements(b[1..]);
      SortedUnique(a[1..], b[1..]);
      assert a == [a[0]] + a[1..] && b == [b[0]] + b[1..];
    }
  }

  /** Equal ids carry equal events: what a table keyed by event_id delivers. */
  ghost predicate Consistent(events: seq<AuthEvent>) {
    forall a, b :: a in events && b in events && Eligible(a) && Eligible(b) && a.id == b.id ==> a == b
  }

  lemma {:induction false} LatestOfConsistent(events: seq<AuthEvent>)
    requires Consistent(events)
    ensures Latest(events) == set e | e in events && Eligible(e)
  {
    if events != [] {
      var n := |events| - 1;
      LatestOfConsistent(events[..n]);
      assert events == events[..n] + [events[n]];
      forall x ensures x in Latest(events) <==> x in events && Eligible(x) {
        LatestSnoc(events, x);
      }
    }
  }
}
