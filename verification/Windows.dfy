/** Sliding windows of failures: the deques and Counters, and what they hold. */
module Windows {
  import opened AuthEvents

  /** What a window is about: one user in a scope, or a whole scope. */
  datatype Subject = Pair(scope: Scope, user: string) | Source(scope: Scope)

  predicate About(k: Subject, e: AuthEvent) {
    e.scope == k.scope && (k.Pair? ==> e.user == k.user)
  }

  predicate IsFailure(k: Subject, e: AuthEvent) {
    e.status == FAILURE && About(k, e)
  }

  /** The failures of k in s at or after the cutoff, in order. */
  function Failures(s: seq<AuthEvent>, k: Subject, cutoff: int): seq<AuthEvent> {
    if s == [] then []
    else
      var n := |s| - 1;
      Failures(s[..n], k, cutoff) + (if IsFailure(k, s[n]) && cutoff <= s[n].ts then [s[n]] else [])
  }

  lemma {:induction false} FailuresElements(s: seq<AuthEvent>, k: Subject, cutoff: int)
    ensures forall e :: e in Failures(s, k, cutoff) <==> e in s && IsFailure(k, e) && cutoff <= e.ts
  {
    if s != [] {
      var n := |s| - 1;
      FailuresElements(s[..n], k, cutoff);
      assert s == s[..n] + [s[n]];
    }
  }

  lemma {:induction false} FailuresSorted(s: seq<AuthEvent>, k: Subject, cutoff: int)
    requires Sorted(s)
    ensures Sorted(Failures(s, k, cutoff))
  {
    if s != [] {
      var n := |s| - 1;
      FailuresSorted(s[..n], k, cutoff);
      FailuresElements(s[..n], k, cutoff);
      assert forall e :: e in s[..n] ==> Before(e, s[n]);
    }
  }

  /** Dropping events older than the cutoff from the front: what lazy eviction leaves. */
  function DropOld(s: seq<AuthEvent>, cutoff: int): seq<AuthEvent> {
    if s != [] && s[0].ts < cutoff then DropOld(s[1..], cutoff) else s
  }

  lemma {:induction false} DropAll(s: seq<AuthEvent>, cutoff: int)
    requires forall e :: e in s ==> e.ts < cutoff
    ensures DropOld(s, cutoff) == []
  {
    if s != [] {
      DropAll(s[1..], cutoff);
    }
  }

  lemma {:induction false} DropAppend(s: seq<AuthEvent>, e: AuthEvent, cutoff: int)
    requires cutoff <= e.ts
    ensures DropOld(s + [e], cutoff) == DropOld(s, cutoff) + [e]
  {
    if s != [] && s[0].ts < cutoff {
      assert (s + [e])[1..] == s[1..] + [e];
      DropAppend(s[1..], e, cutoff);
    }
  }

  /** Evicting a deque that was filled under an older cutoff gives the window of the new one. */
  lemma {:induction false} EvictionIsWindow(s: seq<AuthEvent>, k: Subject, old_: int, cutoff: int)
    requires InTime(s) && old_ <= cutoff
    ensures DropOld(Failures(s, k, old_), cutoff) == Failures(s, k, cutoff)
  {
    if s != [] {
      var n := |s| - 1;
      var front, e := s[..n], s[n];
      EvictionIsWindow(front, k, old_, cutoff);
      if IsFailure(k, e) && old_ <= e.ts {
        if cutoff <= e.ts {
          DropAppend(Failures(front, k, old_), e, cutoff);
        } else {
          FailuresElements(s, k, old_);
          FailuresElements(s, k, cutoff);
          assert forall x :: x in s ==> x.ts <= e.ts;
          DropAll(Failures(s, k, old_), cutoff);
          NoElements(Failures(s, k, cutoff));
        }
      } else {
        assert Failures(s, k, old_) == Failures(front, k, old_);
        assert Failures(s, k, cutoff) == Failures(front, k, cutoff);
      }
    }
  }

  /** How often each key occurs in s. */
  ghost function Tally<K>(s: seq<AuthEvent>, key: AuthEvent -> K): multiset<K> {
    if s == [] then multiset{} else Tally(s[..|s| - 1], key) + multiset{key(s[|s| - 1])}
  }

  lemma TallyAppend<K>(s: seq<AuthEvent>, e: AuthEvent, key: AuthEvent -> K)
    ensures Tally(s + [e], key) == Tally(s, key) + multiset{key(e)}
  {
    assert (s + [e])[..|s|] == s;
  }

  lemma {:induction false} TallyPop<K>(s: seq<AuthEvent>, key: AuthEvent -> K)
    requires s != []
    ensures Tally(s, key) == multiset{key(s[0])} + Tally(s[1..], key)
  {
    var n := |s| - 1;
    if n == 0 {
      assert s[..0] == s[1..] == [];
    } else {
      var front, last := s[..n], multiset{key(s[n])};
      calc {
        Tally(s, key);
        Tally(front, key) + last;
        { TallyPop(front, key); }
        (multiset{key(s[0])} + Tally(front[1..], key)) + last;
        multiset{key(s[0])} + (Tally(front[1..], key) + last);
        { assert s[1..] == front[1..] + [s[n]]; TallyAppend(front[1..], s[n], key); }
        multiset{key(s[0])} + Tally(s[1..], key);
      }
    }
  }

  lemma {:induction false} TallyMember<K>(s: seq<AuthEvent>, key: AuthEvent -> K, k: K)
    ensures k in Tally(s, key) <==> exists e :: e in s && key(e) == k
  {
    if s != [] {
      var n := |s| - 1;
      TallyMember(s[..n], key, k);
      assert s == s[..n] + [s[n]];
    }
  }

  /** A Counter that holds exactly the given multiset, with no zero entry. */
  ghost predicate Counts<K(!new)>(counter: map<K, nat>, bag: multiset<K>) {
    forall k :: (k in counter <==> k in bag) && (k in counter ==> counter[k] == bag[k])
  }

  /** Counter[k]: a missing key reads as zero. */
  function Count<K>(counter: map<K, nat>, k: K): nat {
    if k in counter then counter[k] else 0
  }

  function TimeOf(e: AuthEvent): int { e.ts }

  function UserOf(e: AuthEvent): string { e.user }

  /** The two eviction loops: pop old events off the deque, counting the pops, and keep its Counter in step. */
  method Evict<K(!new, ==)>(deque: seq<AuthEvent>, counter: map<K, nat>, key: AuthEvent -> K, cutoff: int)
      returns (deque': seq<AuthEvent>, counter': map<K, nat>, ghost pops: nat)
    requires Counts(counter, Tally(deque, key))
    ensures deque' == DropOld(deque, cutoff)
    ensures Counts(counter', Tally(deque', key))
    ensures pops + |deque'| == |deque|
  {
    deque', counter', pops := deque, counter, 0;
    while deque' != [] && deque'[0].ts < cutoff
      invariant pops + |deque'| == |deque|
      invariant DropOld(deque', cutoff) == DropOld(deque, cutoff)
      invariant Counts(counter', Tally(deque', key))
      decreases |deque'|
    {
      TallyPop(deque', key);
      var k := key(deque'[0]);
      deque', pops := deque'[1..], pops + 1;
      counter' := counter'[k := counter'[k] - 1];
      if counter'[k] == 0 {
        counter' := counter' - {k};
      }
    }
  }

  /** Append a failure and count it. */
  method Push<K(!new, ==)>(deque: seq<AuthEvent>, counter: map<K, nat>, key: AuthEvent -> K, e: AuthEvent)
      returns (deque': seq<AuthEvent>, counter': map<K, nat>)
    requires Counts(counter, Tally(deque, key))
    ensures deque' == deque + [e]
    ensures Counts(counter', Tally(deque', key))
  {
    TallyAppend(deque, e, key);
    deque' := deque + [e];
    counter' := counter[key(e) := Count(counter, key(e)) + 1];
  }
}
