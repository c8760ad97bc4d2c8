/** Grouping physical lines into events: a log4j line takes the stack trace below it with it. */
module LogicalEvents {
  import opened Prelude
  import opened Text

  /** An event before its lines are joined: the index of its first line, and its lines. */
  datatype Segment = Segment(offset: nat, chunks: seq<string>)

  datatype LimitError = NotPositive | TooMany

  // ---------------------------------------------------------------- the specification

  /** A line that reads as part of a stack trace. */
  predicate Traces(line: string) {
    || (line != [] && IsSpace(line[0]))
    || "at " <= LStrip(line) || "Caused by:" <= LStrip(line) || "Suppressed:" <= LStrip(line)
  }

  predicate Continues(segments: seq<Segment>, isLog4j: string -> bool, line: string) {
    segments != [] && var chunks := segments[|segments| - 1].chunks;
    chunks != [] && isLog4j(chunks[0]) && Traces(line)
  }

  function Extended(segments: seq<Segment>, line: string): (r: seq<Segment>)
    requires segments != []
    ensures |r| == |segments|
  {
    var last := segments[|segments| - 1];
    segments[..|segments| - 1] + [Segment(last.offset, last.chunks + [line])]
  }

  /** What line number i does to the events before it. */
  function Next(segments: seq<Segment>, isLog4j: string -> bool, line: string, i: nat): (r: seq<Segment>)
    ensures |segments| <= |r|
  {
    if Continues(segments, isLog4j, line) then Extended(segments, line)
    else if !Blank(line) then segments + [Segment(i, [line])]
    else segments
  }

  /** The events of the first n lines. */
  function Segments(lines: seq<string>, isLog4j: string -> bool, n: nat): seq<Segment>
    requires n <= |lines|
  {
    if n == 0 then [] else Next(Segments(lines, isLog4j, n - 1), isLog4j, lines[n - 1], n - 1)
  }

  function All(lines: seq<string>, isLog4j: string -> bool): seq<Segment> { Segments(lines, isLog4j, |lines|) }

  function Texts(segments: seq<Segment>): (r: seq<(nat, string)>)
    ensures |r| == |segments|
    ensures forall k :: 0 <= k < |r| ==> r[k] == (segments[k].offset, Join(segments[k].chunks, "\n"))
  {
    seq(|segments|, k requires 0 <= k < |segments| => (segments[k].offset, Join(segments[k].chunks, "\n")))
  }

  /** check_event_limit */
  function LimitCheck(count: nat, maximum: Option<int>): Result<(), LimitError> {
    if maximum.None? then Success(())
    else if maximum.value <= 0 then Failure(NotPositive)
    else if count > maximum.value then Failure(TooMany)
    else Success(())
  }

  // ---------------------------------------------------------------- the loop

  lemma {:induction false} CountNeverFalls(lines: seq<string>, isLog4j: string -> bool, m: nat, n: nat)
    requires m <= n <= |lines|
    ensures |Segments(lines, isLog4j, m)| <= |Segments(lines, isLog4j, n)|
    decreases n
  {
    hide Next;
    if m < n { CountNeverFalls(lines, isLog4j, m, n - 1); }
  }

  /** The loop's variables hold the segments read so far, the last one still open in chunks. */
  ghost predicate Holds(segments: seq<Segment>, isLog4j: string -> bool,
                        events: seq<(nat, string)>, chunks: seq<string>, offset: nat, accepts: bool) {
    if chunks == [] then segments == [] && events == []
    else
      && segments != [] && segments[|segments| - 1] == Segment(offset, chunks)
      && events == Texts(segments[..|segments| - 1])
      && accepts == isLog4j(chunks[0])
  }

  /** Closing what is open gives the text of every segment. */
  lemma HoldsClosed(segments: seq<Segment>, isLog4j: string -> bool, events: seq<(nat, string)>,
                    chunks: seq<string>, offset: nat, accepts: bool)
    requires Holds(segments, isLog4j, events, chunks, offset, accepts)
    ensures (if chunks != [] then events + [(offset, Join(chunks, "\n"))] else events) == Texts(segments)
  {
    hide Join;
  }

  lemma HoldsNext(segments: seq<Segment>, isLog4j: string -> bool, events: seq<(nat, string)>,
                  chunks: seq<string>, offset: nat, accepts: bool, line: string, index: nat)
    requires Holds(segments, isLog4j, events, chunks, offset, accepts)
    ensures
      var next := Next(segments, isLog4j, line, index);
      if accepts && chunks != [] && Traces(line) then
        |next| == |segments| && Holds(next, isLog4j, events, chunks + [line], offset, accepts)
      else if !Blank(line) then
        |next| == |segments| + 1 && Holds(next, isLog4j, Texts(segments), [line], index, isLog4j(line))
      else next == segments
  {
    hide Traces, Blank, Join;
    if accepts && chunks != [] && Traces(line) {
      assert Extended(segments, line)[..|segments| - 1] == segments[..|segments| - 1];
    } else {
      assert (segments + [Segment(index, [line])])[..|segments|] == segments;
    }
  }

  lemma NoLine(lines: seq<string>, isLog4j: string -> bool)
    ensures Segments(lines, isLog4j, 0) == [] && Holds([], isLog4j, [], [], 0, false)
  {
  }

  lemma OneLine(lines: seq<string>, isLog4j: string -> bool, i: nat)
    requires i < |lines|
    ensures Segments(lines, isLog4j, i + 1) == Next(Segments(lines, isLog4j, i), isLog4j, lines[i], i)
  {
  }

  /** A limit error comes exactly when the whole input has more events than allowed: nothing is cut off. */
  method Group(lines: seq<string>, isLog4j: string -> bool, maximum: Option<int>)
    returns (r: Result<seq<(nat, string)>, LimitError>)
    ensures
      var all := All(lines, isLog4j);
      && (r.Failure? <==> all != [] && maximum.Some? && (maximum.value <= 0 || |all| > maximum.value))
      && (r.Failure? ==> r.error == if maximum.value <= 0 then NotPositive else TooMany)
      && (r.Success? ==> r.value == Texts(all))
  {
    hide Segments, Next, Holds, Traces, Blank, Join, Texts;
    var events: seq<(nat, string)> := [];
    var chunks: seq<string> := [];
    var offset := 0;
    var acceptsContinuations := false;
    NoLine(lines, isLog4j);
    for index := 0 to |lines|
      invariant Holds(Segments(lines, isLog4j, index), isLog4j, events, chunks, offset, acceptsContinuations)
      invariant |Segments(lines, isLog4j, index)| == 0
             || LimitCheck(|Segments(lines, isLog4j, index)|, maximum).Success?
    {
      var line := lines[index];
      ghost var before := Segments(lines, isLog4j, index);
      OneLine(lines, isLog4j, index);
      HoldsNext(before, isLog4j, events, chunks, offset, acceptsContinuations, line, index);
      HoldsClosed(before, isLog4j, events, chunks, offset, acceptsContinuations);
      var continuation := acceptsContinuations && chunks != [] && Traces(line);
      if continuation {
        chunks := chunks + [line];
      } else if !Blank(line) {
        if chunks != [] {
          events := events + [(offset, Join(chunks, "\n"))];
        }
        var check := LimitCheck(|events| + 1, maximum);
        if check.Failure? {
          CountNeverFalls(lines, isLog4j, index + 1, |lines|);
          return Failure(check.error);
        }
        offset, chunks := index, [line];
        acceptsContinuations := isLog4j(line);
      }
    }
    HoldsClosed(All(lines, isLog4j), isLog4j, events, chunks, offset, acceptsContinuations);
    if chunks != [] {
      events := events + [(offset, Join(chunks, "\n"))];
    }
    return Success(events);
  }

  // ---------------------------------------------------------------- conservation

  /** A line is dropped only if it is blank and continues nothing. */
  predicate Keeps(lines: seq<string>, isLog4j: string -> bool, i: nat)
    requires i < |lines|
  {
    !Blank(lines[i]) || Continues(Segments(lines, isLog4j, i), isLog4j, lines[i])
  }

  function Kept(lines: seq<string>, isLog4j: string -> bool, start: nat, stop: nat): seq<string>
    requires start <= stop <= |lines|
    decreases stop
  {
    if start == stop then []
    else Kept(lines, isLog4j, start, stop - 1) + if Keeps(lines, isLog4j, stop - 1) then [lines[stop - 1]] else []
  }

  lemma KeptNone(lines: seq<string>, isLog4j: string -> bool, n: nat)
    requires n <= |lines|
    ensures Kept(lines, isLog4j, n, n) == []
  {
  }

  lemma KeptStep(lines: seq<string>, isLog4j: string -> bool, start: nat, n: nat)
    requires 0 < n <= |lines|
    ensures Keeps(lines, isLog4j, n - 1)
        <==> !Blank(lines[n - 1]) || Continues(Segments(lines, isLog4j, n - 1), isLog4j, lines[n - 1])
    ensures start < n ==>
      Kept(lines, isLog4j, start, n)
        == Kept(lines, isLog4j, start, n - 1) + if Keeps(lines, isLog4j, n - 1) then [lines[n - 1]] else []
  {
  }

  function End(segments: seq<Segment>, k: nat, n: nat): nat {
    if k + 1 < |segments| then segments[k + 1].offset else n
  }

  predicate Covers(lines: seq<string>, isLog4j: string -> bool, segments: seq<Segment>, k: nat, n: nat)
    requires k < |segments| && n <= |lines|
  {
    var chunks, start, stop := segments[k].chunks, segments[k].offset, End(segments, k, n);
    && start < stop <= n
    && chunks == Kept(lines, isLog4j, start, stop)
    && chunks != [] && chunks[0] == lines[start]
  }

  /**
   * Offsets strictly increase and index the first line of each event; each event is exactly the kept lines from
   * its own offset up to the next one.
   */
  lemma {:induction false} SegmentsCover(lines: seq<string>, isLog4j: string -> bool, n: nat, k: nat)
    requires n <= |lines| && k < |Segments(lines, isLog4j, n)|
    ensures Covers(lines, isLog4j, Segments(lines, isLog4j, n), k, n)
  {
    hide Continues, Blank, Kept, Keeps, Segments;
    NoLine(lines, isLog4j);
    OneLine(lines, isLog4j, n - 1);
    var before, segments, line := Segments(lines, isLog4j, n - 1), Segments(lines, isLog4j, n), lines[n - 1];
    KeptStep(lines, isLog4j, segments[k].offset, n);
    if k < |before| {
      SegmentsCover(lines, isLog4j, n - 1, k);
      KeptStep(lines, isLog4j, before[k].offset, n);
    } else {
      assert segments[k] == Segment(n - 1, [line]);
      KeptNone(lines, isLog4j, n - 1);
    }
  }

  function Concat(segments: seq<Segment>): seq<string> {
    if segments == [] then []
    else Concat(segments[..|segments| - 1]) + segments[|segments| - 1].chunks
  }

  /** The lines of all events, in order, are the input without the blank lines that continue nothing. */
  lemma {:induction false} LinesAreConserved(lines: seq<string>, isLog4j: string -> bool, n: nat)
    requires n <= |lines|
    ensures Concat(Segments(lines, isLog4j, n)) == Kept(lines, isLog4j, 0, n)
  {
    hide Segments, Next, Blank, Continues, Kept, Keeps;
    NoLine(lines, isLog4j);
    KeptNone(lines, isLog4j, 0);
    if n > 0 {
      KeptStep(lines, isLog4j, 0, n);
      OneLine(lines, isLog4j, n - 1);
      LinesAreConserved(lines, isLog4j, n - 1);
      ConcatNext(Segments(lines, isLog4j, n - 1), isLog4j, lines[n - 1], n - 1);
    }
  }

  lemma ConcatNext(before: seq<Segment>, isLog4j: string -> bool, line: string, i: nat)
    ensures Concat(Next(before, isLog4j, line, i))
         == Concat(before) + if !Blank(line) || Continues(before, isLog4j, line) then [line] else []
  {
    hide Blank, Traces;
    if Continues(before, isLog4j, line) {
      assert Extended(before, line)[..|before| - 1] == before[..|before| - 1];
    } else {
      assert (before + [Segment(i, [line])])[..|before|] == before;
    }
  }

  // ---------------------------------------------------------------- composition

  lemma {:induction false} PrefixDecides(a: seq<string>, b: seq<string>, isLog4j: string -> bool, n: nat)
    requires n <= |a|
    ensures Segments(a + b, isLog4j, n) == Segments(a, isLog4j, n)
  {
    hide Next;
    if n > 0 { PrefixDecides(a, b, isLog4j, n - 1); }
  }

  function Moved(segments: seq<Segment>, distance: nat): (r: seq<Segment>)
    ensures |r| == |segments|
    ensures forall k :: 0 <= k < |r| ==> r[k] == Segment(segments[k].offset + distance, segments[k].chunks)
  {
    seq(|segments|, k requires 0 <= k < |segments| => Segment(segments[k].offset + distance, segments[k].chunks))
  }

  /** A line that starts an event whatever comes before it. */
  predicate Starts(line: string) { !Blank(line) && !Traces(line) }

  lemma ExtendedMoved(head: seq<Segment>, before: seq<Segment>, distance: nat, line: string)
    requires before != []
    ensures Extended(head + Moved(before, distance), line) == head + Moved(Extended(before, line), distance)
  {
    hide Moved;
    var whole := head + Moved(before, distance);
    assert whole[..|whole| - 1] == head + Moved(before[..|before| - 1], distance);
  }

  lemma MovedStep(head: seq<Segment>, before: seq<Segment>, distance: nat, isLog4j: string -> bool, line: string,
                  i: nat)
    requires before != []
    ensures Next(head + Moved(before, distance), isLog4j, line, i + distance)
         == head + Moved(Next(before, isLog4j, line, i), distance)
  {
    hide Blank, Traces, Extended, Moved;
    var whole := head + Moved(before, distance);
    assert whole[|whole| - 1].chunks == before[|before| - 1].chunks;
    ExtendedMoved(head, before, distance, line);
  }

  lemma FirstStep(a: seq<Segment>, isLog4j: string -> bool, line: string, i: nat)
    requires Starts(line)
    ensures Next(a, isLog4j, line, i) == a + [Segment(i, [line])]
  {
  }

  lemma {:induction false} SegmentsCompose(a: seq<string>, b: seq<string>, isLog4j: string -> bool, m: nat)
    requires 0 < m <= |b| && Starts(b[0])
    ensures Segments(b, isLog4j, m) != []
    ensures Segments(a + b, isLog4j, |a| + m) == All(a, isLog4j) + Moved(Segments(b, isLog4j, m), |a|)
    decreases m
  {
    hide Next, Moved, Starts;
    var line := b[m - 1];
    assert (a + b)[|a| + m - 1] == line;
    if m == 1 {
      PrefixDecides(a, b, isLog4j, |a|);
      FirstStep(All(a, isLog4j), isLog4j, line, |a|);
      FirstStep([], isLog4j, line, 0);
      assert Segments(b, isLog4j, 1) == [Segment(0, [line])];
    } else {
      SegmentsCompose(a, b, isLog4j, m - 1);
      MovedStep(All(a, isLog4j), Segments(b, isLog4j, m - 1), |a|, isLog4j, line, m - 1);
    }
  }

  /**
   * If b starts with a line that is neither blank nor part of a trace, grouping a followed by b is grouping a,
   * then b with its offsets moved by |a|.
   */
  lemma GroupingComposes(a: seq<string>, b: seq<string>, isLog4j: string -> bool)
    requires b != [] && Starts(b[0])
    ensures All(a + b, isLog4j) == All(a, isLog4j) + Moved(All(b, isLog4j), |a|)
  {
    hide Segments, Starts;
    SegmentsCompose(a, b, isLog4j, |b|);
  }

  // ---------------------------------------------------------------- normal form

  function Chunks(segments: seq<Segment>): (r: seq<seq<string>>)
    ensures |r| == |segments|
    ensures forall k :: 0 <= k < |r| ==> r[k] == segments[k].chunks
  {
    seq(|segments|, k requires 0 <= k < |segments| => segments[k].chunks)
  }

  lemma OneMore(lines: seq<string>, line: string, isLog4j: string -> bool)
    ensures All(lines + [line], isLog4j) == Next(All(lines, isLog4j), isLog4j, line, |lines|)
  {
    PrefixDecides(lines, [line], isLog4j, |lines|);
  }

  lemma SameChunks(x: seq<Segment>, y: seq<Segment>, isLog4j: string -> bool, line: string, i: nat, j: nat)
    requires Chunks(x) == Chunks(y)
    ensures Chunks(Next(x, isLog4j, line, i)) == Chunks(Next(y, isLog4j, line, j))
  {
    hide Blank, Traces, Chunks;
    assert |x| == |y|;
    assert forall k :: 0 <= k < |x| ==> x[k].chunks == Chunks(x)[k] == Chunks(y)[k] == y[k].chunks;
  }

  /** Dropping the blank lines first changes offsets only: the kept lines group into the same events. */
  lemma {:induction false} KeptLinesGroupAlike(lines: seq<string>, isLog4j: string -> bool, n: nat)
    requires n <= |lines|
    ensures Chunks(All(Kept(lines, isLog4j, 0, n), isLog4j)) == Chunks(Segments(lines, isLog4j, n))
  {
    hide Blank, Traces, Extended, Continues;
    if n > 0 {
      KeptLinesGroupAlike(lines, isLog4j, n - 1);
      var kept, line := Kept(lines, isLog4j, 0, n - 1), lines[n - 1];
      if Keeps(lines, isLog4j, n - 1) {
        SameChunks(All(kept, isLog4j), Segments(lines, isLog4j, n - 1), isLog4j, line, |kept|, n - 1);
        OneMore(kept, line, isLog4j);
        assert Kept(lines, isLog4j, 0, n) == kept + [line];
      } else {
        assert Kept(lines, isLog4j, 0, n) == kept;
      }
    }
  }

  /** A line that is not blank is one event at offset 0, whatever the parser says of it. */
  lemma SingleLine(line: string, isLog4j: string -> bool)
    requires !Blank(line)
    ensures Texts(All([line], isLog4j)) == [(0, line)]
  {
    hide Blank;
    assert Segments([line], isLog4j, 0) == [];
    assert All([line], isLog4j) == [Segment(0, [line])];
  }

  // ---------------------------------------------------------------- trace lines

  /** A line that starts with whitespace, or in one of three ways without it. */
  predicate Indented(line: string) {
    || (line != [] && line[0] in WHITESPACE)
    || "at " <= line || "Caused by:" <= line || "Suppressed:" <= line
  }

  lemma TracesExact(line: string)
    ensures Traces(line) <==> Indented(line)
    ensures Blank(line) <==> forall c :: c in line ==> c in WHITESPACE
  {
    hide WHITESPACE, IsSpace;
    forall c ensures IsSpace(c) <==> c in WHITESPACE { SpaceExact(c); }
    assert Blank(line) ==> forall c :: c in line ==> IsSpace(c);
    assert forall i :: 0 <= i < |line| ==> line[i] in line;
  }

  /**
   * What one more line does, whatever came before: behind a Log4j line it belongs to the last event if it is
   * indented; otherwise it starts an event of its own, unless it is all whitespace.
   */
  lemma OneLineMore(lines: seq<string>, isLog4j: string -> bool, line: string)
    ensures
      var before, after := All(lines, isLog4j), All(lines + [line], isLog4j);
      && (before != [] ==> before[|before| - 1].chunks != [])
      && after == if before != [] && isLog4j(before[|before| - 1].chunks[0]) && Indented(line) then
                    var last := before[|before| - 1];
                    before[..|before| - 1] + [Segment(last.offset, last.chunks + [line])]
                  else if exists c :: c in line && c !in WHITESPACE then before + [Segment(|lines|, [line])]
                  else before
  {
    hide Traces, Blank, Indented, WHITESPACE;
    var before := All(lines, isLog4j);
    if before != [] { SegmentsCover(lines, isLog4j, |lines|, |before| - 1); }
    OneMore(lines, line, isLog4j);
    TracesExact(line);
  }
}
