/** Statements that succeed or fail as a script says, one after the other, until the first that fails. */
module Scripts {

  /** How statement number i goes: beyond the script all succeed. */
  predicate Works(script: seq<bool>, i: nat) { i < |script| ==> script[i] }

  predicate AllWork(script: seq<bool>, n: nat) { forall i: nat :: i < n ==> Works(script, i) }

  /** The script after n statements. */
  function Left(script: seq<bool>, n: nat): seq<bool> { if n <= |script| then script[n..] else [] }

  /** The number of the first statement that fails, if any. */
  function FirstFailure(script: seq<bool>): nat {
    if script == [] || !script[0] then 0 else 1 + FirstFailure(script[1..])
  }

  lemma LeftLeft(script: seq<bool>, m: nat, n: nat)
    ensures Left(Left(script, m), n) == Left(script, m + n)
    ensures forall i: nat :: Works(Left(script, m), i) <==> Works(script, m + i)
    ensures AllWork(script, m + n) <==> AllWork(script, m) && AllWork(Left(script, m), n)
  {
    if AllWork(script, m) && AllWork(Left(script, m), n) {
      forall i: nat | i < m + n ensures Works(script, i) {
        if i >= m { assert Works(Left(script, m), i - m); }
      }
    }
  }

  lemma {:induction false} FailureAfter(script: seq<bool>, m: nat)
    requires AllWork(script, m)
    ensures m <= |script| ==> FirstFailure(script) == m + FirstFailure(Left(script, m))
  {
    if m > 0 && script != [] {
      assert Works(script, 0);
      forall i: nat | i < m - 1 ensures Works(script[1..], i) { assert Works(script, i + 1); }
      FailureAfter(script[1..], m - 1);
    } else {
      assert Left(script, 0) == script;
    }
  }

  /** The next n statements were sent, up to the first that failed; ok says that none did. */
  predicate Spent(before: seq<bool>, after: seq<bool>, n: nat, ok: bool) {
    && ok == AllWork(before, n)
    && after == Left(before, if ok then n else FirstFailure(before) + 1)
  }

  lemma NothingSpent(script: seq<bool>)
    ensures Spent(script, script, 0, true)
  {
  }

  lemma OneSpent(before: seq<bool>, after: seq<bool>, ok: bool)
    requires ok == Works(before, 0) && after == Left(before, 1)
    ensures Spent(before, after, 1, ok)
  {
  }

  lemma SpentMore(before: seq<bool>, mid: seq<bool>, after: seq<bool>, m: nat, n: nat, ok: bool)
    requires Spent(before, mid, m, true) && Spent(mid, after, n, ok)
    ensures Spent(before, after, m + n, ok)
  {
    LeftLeft(before, m, n);
    if !ok {
      FailsWithin(before, m + n);
      FailureAfter(before, m);
      LeftLeft(before, m, FirstFailure(mid) + 1);
    }
  }

  lemma FailsWithin(script: seq<bool>, n: nat)
    requires !AllWork(script, n)
    ensures FirstFailure(script) < n && FirstFailure(script) < |script|
  {
    var i: nat :| i < n && !Works(script, i);
    FailureBefore(script, i);
  }

  lemma {:induction false} FailureBefore(script: seq<bool>, i: nat)
    requires !Works(script, i)
    ensures FirstFailure(script) <= i
  {
    if script[0] { FailureBefore(script[1..], i - 1); }
  }

  /** A failure among the first statements is one among more of them. */
  lemma SpentFails(before: seq<bool>, after: seq<bool>, m: nat, n: nat)
    requires Spent(before, after, m, false) && m <= n
    ensures Spent(before, after, n, false)
  {
    var i: nat :| i < m && !Works(before, i);
  }

  lemma FailedAfterFirst(script: seq<bool>)
    requires AllWork(script, 1)
    ensures FirstFailure(script) > 0 || script == []
  {
    assert Works(script, 0);
  }
}
