/** Splitting a list of rows into MERGE statements under a row limit and a byte limit. */
module Batcher {
  /** A row together with the bytes it adds to a statement. */
  datatype Sized<T> = Sized(item: T, size: nat)

  datatype Limits = Limits(maxRows: nat, maxBytes: int, fixed: nat)

  function Total<T>(batch: seq<Sized<T>>): nat {
    if batch == [] then 0 else Total(batch[..|batch| - 1]) + batch[|batch| - 1].size
  }

  function Concat<T>(batches: seq<seq<T>>): seq<T> {
    if batches == [] then [] else Concat(batches[..|batches| - 1]) + batches[|batches| - 1]
  }

  predicate Fits<T>(x: Sized<T>, lim: Limits) {
    x.size + lim.fixed <= lim.maxBytes
  }

  /** A statement that both limits allow. */
  predicate Feasible<T>(batch: seq<Sized<T>>, lim: Limits) {
    0 < |batch| <= lim.maxRows && lim.fixed + Total(batch) <= lim.maxBytes
  }

  /** Any way to cut the items, in order, into allowed statements. */
  ghost predicate Splits<T>(batches: seq<seq<Sized<T>>>, items: seq<Sized<T>>, lim: Limits) {
    Concat(batches) == items && AllFeasible(batches, lim)
  }

  datatype Packing<T> = Packing(closed: seq<seq<T>>, open: seq<T>)

  predicate Full<T>(batch: seq<Sized<T>>, x: Sized<T>, lim: Limits) {
    batch != [] && (|batch| >= lim.maxRows || lim.fixed + Total(batch) + x.size > lim.maxBytes)
  }

  /** The batches sent so far and the one still open after the items. */
  function Pack<T>(items: seq<Sized<T>>, lim: Limits): Packing<Sized<T>> {
    if items == [] then Packing([], [])
    else
      var n := |items| - 1;
      var p := Pack(items[..n], lim);
      if Full(p.open, items[n], lim) then Packing(p.closed + [p.open], [items[n]])
      else p.(open := p.open + [items[n]])
  }

  function Batches<T>(items: seq<Sized<T>>, lim: Limits): seq<seq<Sized<T>>> {
    var p := Pack(items, lim);
    if p.open == [] then p.closed else p.closed + [p.open]
  }

  /** The index of the first item that does not fit a statement of its own, or |items|. */
  function FirstOversize<T>(items: seq<Sized<T>>, lim: Limits): (k: nat)
    ensures k <= |items|
    ensures forall i :: 0 <= i < k ==> Fits(items[i], lim)
    ensures k < |items| ==> !Fits(items[k], lim)
  {
    if items == [] || !Fits(items[0], lim) then 0
    else
      assert items == [items[0]] + items[1..];
      1 + FirstOversize(items[1..], lim)
  }

  /** The statements that are sent, and whether all items were. */
  function Sent<T>(items: seq<Sized<T>>, lim: Limits): seq<seq<Sized<T>>> {
    var k := FirstOversize(items, lim);
    if k == |items| then Batches(items, lim) else Pack(items[..k], lim).closed
  }

  /** The loop of _merge_batches: an oversize item raises, and the open batch is not sent. */
  method Split<T>(items: seq<Sized<T>>, lim: Limits) returns (sent: seq<seq<Sized<T>>>, raised: bool)
    requires lim.maxRows > 0
    ensures sent == Sent(items, lim)
    ensures raised <==> exists i :: 0 <= i < |items| && !Fits(items[i], lim)
  {
    hide Pack, Total, FirstOversize;
    sent, raised := [], false;
    var batch: seq<Sized<T>>, estimated := [], lim.fixed;
    PackEmpty<T>(lim);
    TotalEmpty<T>();
    for i := 0 to |items|
      invariant Pack(items[..i], lim) == Packing(sent, batch)
      invariant estimated == lim.fixed + Total(batch)
      invariant forall j :: 0 <= j < i ==> Fits(items[j], lim)
    {
      var x := items[i];
      if x.size + lim.fixed > lim.maxBytes {
        FirstOversizeIs(items, i, lim);
        return sent, true;
      }
      assert items[..i + 1] == items[..i] + [x];
      PackSnoc(items[..i], x, lim);
      if batch != [] && (|batch| >= lim.maxRows || estimated + x.size > lim.maxBytes) {
        sent := sent + [batch];
        batch := [];
        estimated := lim.fixed;
      }
      TotalSnoc(batch, x);
      batch := batch + [x];
      estimated := estimated + x.size;
    }
    assert items[..|items|] == items;
    if batch != [] {
      sent := sent + [batch];
    }
  }

  lemma TotalEmpty<T>()
    ensures Total<T>([]) == 0
  {
  }

  lemma {:induction false} FirstOversizeIs<T>(items: seq<Sized<T>>, k: nat, lim: Limits)
    requires k < |items| && !Fits(items[k], lim) && forall i :: 0 <= i < k ==> Fits(items[i], lim)
    ensures FirstOversize(items, lim) == k
  {
  }

  // ---------------------------------------------------------------- what the batches are

  lemma ConcatSnoc<T>(batches: seq<seq<T>>, b: seq<T>)
    ensures Concat(batches + [b]) == Concat(batches) + b
  {
    assert (batches + [b])[..|batches|] == batches;
  }

  lemma TotalSnoc<T>(batch: seq<Sized<T>>, x: Sized<T>)
    ensures Total(batch + [x]) == Total(batch) + x.size
  {
    assert (batch + [x])[..|batch|] == batch;
  }

  lemma PackSnoc<T>(front: seq<Sized<T>>, x: Sized<T>, lim: Limits)
    ensures var p := Pack(front, lim);
            Pack(front + [x], lim) ==
            if Full(p.open, x, lim) then Packing(p.closed + [p.open], [x]) else p.(open := p.open + [x])
  {
    assert (front + [x])[..|front|] == front;
  }

  lemma PackEmpty<T>(lim: Limits)
    ensures Pack<T>([], lim) == Packing([], [])
  {
  }

  ghost predicate AllFeasible<T>(batches: seq<seq<Sized<T>>>, lim: Limits) {
    forall i :: 0 <= i < |batches| ==> Feasible(batches[i], lim)
  }

  /** What is sent, then what is open, make up the items; everything is within both limits. */
  ghost predicate Covers<T>(p: Packing<Sized<T>>, items: seq<Sized<T>>, lim: Limits) {
    && Concat(p.closed) + p.open == items && AllFeasible(p.closed, lim)
    && if items == [] then p.open == [] else Feasible(p.open, lim)
  }

  lemma CoversNext<T>(p: Packing<Sized<T>>, front: seq<Sized<T>>, x: Sized<T>, lim: Limits)
    requires lim.maxRows > 0 && Fits(x, lim) && Covers(p, front, lim)
    ensures Covers(if Full(p.open, x, lim) then Packing(p.closed + [p.open], [x]) else p.(open := p.open + [x]),
                   front + [x], lim)
  {
    hide Feasible, Full, Fits;
    OpenFeasible(p.open, x, lim);
    ConcatSnoc(p.closed, p.open);
    assert Concat(p.closed) + (p.open + [x]) == front + [x];
    if front == [] { EmptyNotFull(x, lim); }
  }

  lemma EmptyNotFull<T>(x: Sized<T>, lim: Limits)
    ensures !Full([], x, lim)
  {
  }

  /** Greedy packing keeps the items in order and every batch within both limits. */
  lemma {:induction false} PackCovers<T>(items: seq<Sized<T>>, lim: Limits)
    requires lim.maxRows > 0 && forall i :: 0 <= i < |items| ==> Fits(items[i], lim)
    ensures Covers(Pack(items, lim), items, lim)
  {
    hide Covers, Full, Pack, Fits;
    if items == [] {
      CoversEmpty<T>(lim);
    } else {
      var n := |items| - 1;
      PackCovers(items[..n], lim);
      PackSnoc(items[..n], items[n], lim);
      CoversNext(Pack(items[..n], lim), items[..n], items[n], lim);
      assert items == items[..n] + [items[n]];
    }
  }

  lemma CoversEmpty<T>(lim: Limits)
    ensures Covers(Pack<T>([], lim), [], lim)
  {
  }

  lemma OpenFeasible<T>(open: seq<Sized<T>>, x: Sized<T>, lim: Limits)
    requires lim.maxRows > 0 && Fits(x, lim)
    ensures !Full([], x, lim) && Feasible([x], lim) && [] + [x] == [x]
    ensures (open == [] || Feasible(open, lim)) && !Full(open, x, lim) ==> Feasible(open + [x], lim)
  {
    TotalSnoc([], x);
    TotalSnoc(open, x);
    assert [] + [x] == [x];
  }

  lemma BatchesSplit<T>(items: seq<Sized<T>>, lim: Limits)
    requires lim.maxRows > 0 && forall i :: 0 <= i < |items| ==> Fits(items[i], lim)
    ensures Splits(Batches(items, lim), items, lim)
  {
    hide Feasible, Fits, Pack;
    PackCovers(items, lim);
    ConcatSnoc(Pack(items, lim).closed, Pack(items, lim).open);
  }

  // ---------------------------------------------------------------- optimality

  lemma {:induction false} TotalOfSuffix<T>(a: seq<Sized<T>>, b: seq<Sized<T>>)
    requires |b| <= |a| && a[|a| - |b|..] == b
    ensures Total(b) <= Total(a)
  {
    if b != [] {
      var n := |a| - 1;
      assert b == a[|a| - |b|..|a|];
      assert a[..n][n - (|b| - 1)..] == b[..|b| - 1];
      TotalOfSuffix(a[..n], b[..|b| - 1]);
      assert b[|b| - 1] == a[n];
    }
  }

  /** q needs more batches than greedy, or as many with a last batch at least as long. */
  ghost predicate Behind<T>(q: seq<seq<Sized<T>>>, p: Packing<Sized<T>>) {
    q != [] && (|q| > |p.closed| + 1 || (|q| == |p.closed| + 1 && |q[|q| - 1]| >= |p.open|))
  }

  /** A batch that greedy could not extend cannot be extended when it is longer, either. */
  lemma LongerIsFull<T>(l: seq<Sized<T>>, open: seq<Sized<T>>, x: Sized<T>, lim: Limits)
    requires |open| <= |l| && l[|l| - |open|..] == open && Full(open, x, lim)
    ensures !Feasible(l + [x], lim)
  {
    TotalOfSuffix(l, open);
    TotalSnoc(l, x);
  }

  lemma SameTail<T>(a: seq<T>, b: seq<T>, c: seq<T>, d: seq<T>)
    requires a + b == c + d && |b| <= |d|
    ensures d[|d| - |b|..] == b
  {
    assert (a + b)[|a|..] == b && (c + d)[|c|..] == d;
    assert d[|d| - |b|..] == (c + d)[|c| + |d| - |b|..];
  }

  /** Greedy stays ahead of every other split. */
  lemma {:induction false} StaysAhead<T>(items: seq<Sized<T>>, q: seq<seq<Sized<T>>>, lim: Limits)
    requires items != [] && lim.maxRows > 0 && (forall i :: 0 <= i < |items| ==> Fits(items[i], lim))
    requires Splits(q, items, lim)
    ensures Behind(q, Pack(items, lim))
    decreases |items|
  {
    hide Pack, Full, Feasible, Fits;
    var n, m := |items| - 1, |q| - 1;
    var front, x, before, last := items[..n], items[n], q[..m], q[m];
    assert items == front + [x] && q == before + [last];
    ConcatSnoc(before, last);
    assert Feasible(last, lim) && last != [] by { assert Feasible(q[m], lim); LongEnough(q[m], lim); }
    PackSnoc(front, x, lim);
    PackCovers(front, lim);
    var p := Pack(front, lim);
    var l := last[..|last| - 1];
    assert last == l + [x] by { assert items[n] == (Concat(before) + last)[n]; }
    assert AllFeasible(before, lim);
    if l == [] {
      assert Concat(before) == front;
      if front != [] {
        StaysAhead(front, before, lim);
      } else {
        OpenFeasible([], x, lim) by { assert Fits(items[n], lim); }
        assert p == Packing([], []) by { PackEmpty<T>(lim); }
      }
    } else {
      ConcatSnoc(before, l);
      assert Concat(before) + l == front;
      ShorterFeasible(l, x, lim);
      StaysAhead(front, before + [l], lim);
      if |l| >= |p.open| && Full(p.open, x, lim) {
        SameTail(Concat(p.closed), p.open, Concat(before), l);
        LongerIsFull(l, p.open, x, lim);
      }
    }
  }

  lemma LongEnough<T>(batch: seq<Sized<T>>, lim: Limits)
    requires Feasible(batch, lim)
    ensures batch != []
  {
  }

  lemma ShorterFeasible<T>(l: seq<Sized<T>>, x: Sized<T>, lim: Limits)
    requires l != [] && Feasible(l + [x], lim)
    ensures Feasible(l, lim)
  {
    TotalSnoc(l, x);
  }

  /** No order-preserving split into allowed statements uses fewer of them. */
  lemma GreedyIsOptimal<T>(items: seq<Sized<T>>, q: seq<seq<Sized<T>>>, lim: Limits)
    requires lim.maxRows > 0 && (forall i :: 0 <= i < |items| ==> Fits(items[i], lim))
    requires Splits(q, items, lim)
    ensures |Batches(items, lim)| <= |q|
  {
    if items != [] {
      hide Feasible, Pack;
      PackCovers(items, lim);
      StaysAhead(items, q, lim);
    }
  }

  /** When an oversize item raises, what was sent is a prefix of the items before it, cut within the limits. */
  lemma SentIsPrefix<T>(items: seq<Sized<T>>, lim: Limits)
    requires lim.maxRows > 0
    ensures Concat(Sent(items, lim)) <= items[..FirstOversize(items, lim)]
    ensures forall i :: 0 <= i < |Sent(items, lim)| ==> Feasible(Sent(items, lim)[i], lim)
    ensures FirstOversize(items, lim) == |items| ==> Concat(Sent(items, lim)) == items
  {
    hide Pack, Feasible, FirstOversize;
    var k := FirstOversize(items, lim);
    PackCovers(items[..k], lim);
    BatchesSplit(items[..k], lim);
    assert items[..|items|] == items;
  }

  // ---------------------------------------------------------------- rows without their sizes

  /** The rows of a statement, without their sizes. */
  function Strip<T>(batch: seq<Sized<T>>): seq<T> {
    if batch == [] then [] else Strip(batch[..|batch| - 1]) + [batch[|batch| - 1].item]
  }

  lemma {:induction false} StripOfTwo<T>(a: seq<Sized<T>>, b: seq<Sized<T>>)
    ensures Strip(a + b) == Strip(a) + Strip(b)
  {
    if b == [] {
      assert a + b == a;
    } else {
      assert (a + b)[..|a + b| - 1] == a + b[..|b| - 1];
      StripOfTwo(a, b[..|b| - 1]);
    }
  }

  lemma StripSnoc<T>(batch: seq<Sized<T>>, x: Sized<T>)
    ensures Strip(batch + [x]) == Strip(batch) + [x.item]
  {
    assert (batch + [x])[..|batch|] == batch;
  }

  lemma {:induction false} StripLength<T>(batch: seq<Sized<T>>)
    ensures |Strip(batch)| == |batch|
  {
    if batch != [] { StripLength(batch[..|batch| - 1]); }
  }

  /** The i-th statement sent carries the next stretch of the rows. */
  lemma NextStretch<T>(rows: seq<T>, sized: seq<Sized<T>>, sent: seq<seq<Sized<T>>>, i: nat)
      returns (m: nat)
    requires i < |sent| && Concat(sent) <= sized && Strip(sized) == rows && |sized| == |rows|
    ensures var n := |Concat(sent[..i])|;
            n <= m <= |rows| && m == |Concat(sent[..i + 1])| && Strip(sent[i]) == rows[n..m]
  {
    var before, batch := Concat(sent[..i]), sent[i];
    var n := |before|;
    m := n + |batch|;
    assert sent[..i + 1] == sent[..i] + [batch];
    ConcatSnoc(sent[..i], batch);
    ConcatSplit(sent, i + 1);
    var rest := sized[m..];
    assert sized == before + batch + rest;
    StripOfTwo(before, batch);
    StripOfTwo(before + batch, rest);
    StripLength(before);
    StripLength(batch);
  }

  lemma {:induction false} ConcatSplit<T>(batches: seq<seq<T>>, i: nat)
    requires i <= |batches|
    ensures Concat(batches[..i]) <= Concat(batches)
  {
    if i < |batches| {
      var n := |batches| - 1;
      ConcatSplit(batches[..n], i);
      assert batches[..n][..i] == batches[..i];
    } else {
      assert batches[..i] == batches;
    }
  }
}
