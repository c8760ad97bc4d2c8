/** Splitting on unescaped separators and undoing backslash escapes, as inverses of escaping and joining. */
module Escaping {
  import opened Text

  // ---------------------------------------------------------------- where a line is cut

  /** How many backslashes stand directly before position i. */
  function Backslashes(s: string, i: nat): nat
    requires i <= |s|
  {
    if i > 0 && s[i - 1] == '\\' then 1 + Backslashes(s, i - 1) else 0
  }

  /** A separator after an even run of backslashes; a backslash used as the separator always cuts. */
  predicate CutAt(s: string, separator: char, i: nat)
    requires i < |s|
  {
    s[i] == separator && (separator == '\\' || Backslashes(s, i) % 2 == 0)
  }

  /** Strictly ascending positions below n. */
  predicate Positions(cuts: seq<nat>, n: nat)
    decreases |cuts|
  {
    cuts == [] || (cuts[|cuts| - 1] < n && Positions(cuts[..|cuts| - 1], cuts[|cuts| - 1]))
  }

  function Cuts(s: string, separator: char, n: nat): (cuts: seq<nat>)
    requires n <= |s|
    ensures Positions(cuts, n)
  {
    if n == 0 then []
    else
      var before := Cuts(s, separator, n - 1);
      if CutAt(s, separator, n - 1) then before + [n - 1] else before
  }

  lemma {:induction false} CutsExact(s: string, separator: char, n: nat, i: nat)
    requires n <= |s|
    ensures i in Cuts(s, separator, n) <==> i < n && CutAt(s, separator, i)
  {
    if n > 0 {
      CutsExact(s, separator, n - 1, i);
      var before := Cuts(s, separator, n - 1);
      assert i in before + [n - 1] <==> i in before || i == n - 1;
    }
  }

  ghost function CutSet(s: string, separator: char, n: nat): set<nat>
    requires n <= |s|
  {
    set i: nat | i < n && CutAt(s, separator, i)
  }

  lemma {:induction false} CutsCounted(s: string, separator: char, n: nat)
    requires n <= |s|
    ensures |Cuts(s, separator, n)| == |CutSet(s, separator, n)|
  {
    if n > 0 {
      CutsCounted(s, separator, n - 1);
      var before := CutSet(s, separator, n - 1);
      assert CutSet(s, separator, n) == if CutAt(s, separator, n - 1) then before + {n - 1} else before;
    }
  }

  lemma {:induction false} PositionsPrefix(cuts: seq<nat>, n: nat, m: nat)
    requires Positions(cuts, n) && m <= |cuts|
    ensures Positions(cuts[..m], n)
    decreases |cuts|
  {
    if m == |cuts| {
      assert cuts[..m] == cuts;
    } else {
      var most := |cuts| - 1;
      PositionsPrefix(cuts[..most], cuts[most], m);
      assert cuts[..most][..m] == cuts[..m];
    }
  }

  /** A negative limit is no limit. */
  predicate Open(maxsplit: int, done: nat) { maxsplit < 0 || done < maxsplit }

  function First(cuts: seq<nat>, maxsplit: int, ghost n: nat): (r: seq<nat>)
    requires Positions(cuts, n)
    ensures r <= cuts && Positions(r, n)
  {
    if Open(maxsplit, |cuts|) then cuts
    else
      PositionsPrefix(cuts, n, maxsplit);
      cuts[..maxsplit]
  }

  /** The positions below n where split_escaped cuts: the first maxsplit of them. */
  function Taken(s: string, separator: char, maxsplit: int, n: nat): (r: seq<nat>)
    requires n <= |s|
    ensures Positions(r, n)
  {
    First(Cuts(s, separator, n), maxsplit, n)
  }

  /** The pieces of s left and right of the given positions. */
  function Between(s: string, cuts: seq<nat>): (parts: seq<string>)
    requires Positions(cuts, |s|)
    ensures |parts| == |cuts| + 1
    decreases |cuts|
  {
    if cuts == [] then [s]
    else
      var last := cuts[|cuts| - 1];
      Between(s[..last], cuts[..|cuts| - 1]) + [s[last + 1..]]
  }

  /** The specification of split_escaped. */
  function Split(s: string, separator: char, maxsplit: int): (parts: seq<string>) {
    Between(s, Taken(s, separator, maxsplit, |s|))
  }

  lemma NothingTaken(s: string, separator: char, maxsplit: int)
    ensures Taken(s, separator, maxsplit, 0) == [] && Between(s[..0], []) == [""]
  {
  }

  lemma CutTaken(s: string, cuts: seq<nat>, i: nat)
    requires i < |s| && Positions(cuts, i)
    ensures Positions(cuts + [i], i + 1)
    ensures Between(s[..i + 1], cuts + [i]) == Between(s[..i], cuts) + [""]
  {
    assert s[..i + 1][..i] == s[..i] && s[..i + 1][i + 1..] == "";
    assert (cuts + [i])[..|cuts|] == cuts;
  }

  lemma LastPartGrows(s: string, cuts: seq<nat>, i: nat)
    requires i < |s| && Positions(cuts, i)
    ensures
      var parts := Between(s[..i], cuts);
      Between(s[..i + 1], cuts) == parts[..|cuts|] + [parts[|cuts|] + [s[i]]]
  {
    var parts := Between(s[..i], cuts);
    if cuts == [] {
      assert s[..i + 1] == s[..i] + [s[i]] && parts[..0] == [];
    } else {
      var last := cuts[|cuts| - 1];
      assert s[..i + 1][..last] == s[..last] == s[..i][..last];
      assert parts[..|cuts|] == Between(s[..last], cuts[..|cuts| - 1]);
      assert s[..i + 1][last + 1..] == s[..i][last + 1..] + [s[i]];
    }
  }

  lemma FirstStep(s: string, separator: char, maxsplit: int, i: nat)
    requires i < |s|
    ensures
      var before := Taken(s, separator, maxsplit, i);
      Taken(s, separator, maxsplit, i + 1)
        == if CutAt(s, separator, i) && Open(maxsplit, |before|) then before + [i] else before
  {
    hide CutAt;
  }

  /** The same for a separator of any length: only a single character is ever equal to one of the line. */
  function TakenBy(s: string, separator: string, maxsplit: int, n: nat): (r: seq<nat>)
    requires n <= |s|
    ensures Positions(r, n)
  {
    if |separator| == 1 then Taken(s, separator[0], maxsplit, n) else []
  }

  function SplitBy(s: string, separator: string, maxsplit: int): (parts: seq<string>) {
    if |separator| == 1 then Split(s, separator[0], maxsplit) else [s]
  }

  lemma NothingTakenBy(s: string, separator: string, maxsplit: int)
    ensures TakenBy(s, separator, maxsplit, 0) == [] && Between(s[..0], []) == [""]
    ensures SplitBy(s, separator, maxsplit) == Between(s, TakenBy(s, separator, maxsplit, |s|))
  {
    if |separator| == 1 { NothingTaken(s, separator[0], maxsplit); }
  }

  lemma TakenByStep(s: string, separator: string, maxsplit: int, i: nat)
    requires i < |s|
    ensures
      var before := TakenBy(s, separator, maxsplit, i);
      TakenBy(s, separator, maxsplit, i + 1)
        == if [s[i]] == separator && CutAt(s, s[i], i) && Open(maxsplit, |before|) then before + [i] else before
  {
    hide Taken, CutAt;
    if |separator| == 1 {
      FirstStep(s, separator[0], maxsplit, i);
      CutIsSeparator(s, separator[0], i);
    }
  }

  lemma CutIsSeparator(s: string, separator: char, i: nat)
    requires i < |s|
    ensures CutAt(s, separator, i) <==> s[i] == separator && CutAt(s, s[i], i)
  {
  }

  method SplitEscaped(value: string, separator: string, maxsplit: int) returns (parts: seq<string>)
    ensures parts == SplitBy(value, separator, maxsplit)
  {
    hide Between, TakenBy, SplitBy, Positions;
    parts := [];
    var current: string := [];
    var escaped := false;
    var splits := 0;
    ghost var taken: seq<nat> := [];
    NothingTakenBy(value, separator, maxsplit);
    for i := 0 to |value|
      invariant taken == TakenBy(value, separator, maxsplit, i) && splits == |taken|
      invariant parts + [current] == Between(value[..i], taken)
      invariant separator != "\\" ==> escaped == (Backslashes(value, i) % 2 == 1)
      invariant separator == "\\" && Open(maxsplit, splits) ==> !escaped
    {
      TakenByStep(value, separator, maxsplit, i);
      if [value[i]] == separator && !escaped && Open(maxsplit, splits) {
        CutTaken(value, taken, i);
        taken := taken + [i];
        parts := parts + [current];
        current := [];
        splits := splits + 1;
      } else {
        LastPartGrows(value, taken, i);
        current := current + [value[i]];
        escaped := value[i] == '\\' && !escaped;
        if value[i] != '\\' { escaped := false; }
      }
    }
    assert value[..|value|] == value;
    parts := parts + [current];
  }

  // ---------------------------------------------------------------- nothing is lost

  lemma {:induction false} JoinSnoc(parts: seq<string>, last: string, separator: string)
    requires parts != []
    ensures Join(parts + [last], separator) == Join(parts, separator) + separator + last
  {
    if |parts| > 1 {
      assert (parts + [last])[1..] == parts[1..] + [last];
      JoinSnoc(parts[1..], last, separator);
      assert parts[0] + separator + (Join(parts[1..], separator) + separator + last)
          == parts[0] + separator + Join(parts[1..], separator) + separator + last;
    }
  }

  lemma {:induction false} PositionsBelow(cuts: seq<nat>, n: nat, c: nat)
    requires Positions(cuts, n) && c in cuts
    ensures c < n
    decreases |cuts|
  {
    var most := |cuts| - 1;
    assert cuts == cuts[..most] + [cuts[most]];
    if c in cuts[..most] { PositionsBelow(cuts[..most], cuts[most], c); }
  }

  lemma {:induction false} JoinBetween(s: string, cuts: seq<nat>, separator: char)
    requires Positions(cuts, |s|)
    requires forall c :: c in cuts ==> c < |s| && s[c] == separator
    ensures Join(Between(s, cuts), [separator]) == s
    decreases |cuts|
  {
    if cuts != [] {
      var last, before := cuts[|cuts| - 1], cuts[..|cuts| - 1];
      forall c | c in before ensures c < last && s[..last][c] == separator {
        PositionsBelow(before, last, c);
        assert cuts == before + [last] && c in cuts;
      }
      JoinBetween(s[..last], before, separator);
      JoinSnoc(Between(s[..last], before), s[last + 1..], [separator]);
      assert s == s[..last] + [separator] + s[last + 1..];
    }
  }

  /**
   * For every separator and limit: joining the parts restores the line, and there is one part more than the
   * cuts taken, which are the first of all the separators that no backslash escapes.
   */
  lemma SplitConserves(s: string, separator: char, maxsplit: int)
    ensures Join(Split(s, separator, maxsplit), [separator]) == s
    ensures
      var all := |CutSet(s, separator, |s|)|;
      |Split(s, separator, maxsplit)| == 1 + if Open(maxsplit, all) then all else maxsplit
  {
    var cuts := Taken(s, separator, maxsplit, |s|);
    forall c | c in cuts ensures c < |s| && s[c] == separator { CutsExact(s, separator, |s|, c); }
    JoinBetween(s, cuts, separator);
    CutsCounted(s, separator, |s|);
  }

  /** Joining restores the line for separators of any length; one that is not a single character never cuts. */
  lemma SplitByConserves(s: string, separator: string, maxsplit: int)
    ensures Join(SplitBy(s, separator, maxsplit), separator) == s
    ensures |separator| != 1 ==> SplitBy(s, separator, maxsplit) == [s]
  {
    if |separator| == 1 {
      SplitConserves(s, separator[0], maxsplit);
      assert [separator[0]] == separator;
    }
  }

  // ---------------------------------------------------------------- undoing escapes

  function Meaning(c: char): char {
    if c == 'n' then '\n' else if c == 'r' then '\r' else if c == 't' then '\t' else c
  }

  /** The specification of unescape_cef: a backslash that ends the value stays. */
  function Unescape(s: string): (r: string) {
    if s == [] then []
    else if s[0] == '\\' && |s| > 1 then [Meaning(s[1])] + Unescape(s[2..])
    else [s[0]] + Unescape(s[1..])
  }

  lemma UnescapeFrom(s: string, i: nat)
    requires i < |s|
    ensures Unescape(s[i..])
         == if s[i] == '\\' && i + 1 < |s| then [Meaning(s[i + 1])] + Unescape(s[i + 2..])
            else [s[i]] + Unescape(s[i + 1..])
  {
    var rest := s[i..];
    assert rest[1..] == s[i + 1..];
    if |rest| > 1 { assert rest[2..] == s[i + 2..]; }
  }

  lemma UnescapeEnds(s: string)
    ensures s[0..] == s && Unescape(s[|s|..]) == []
  {
  }

  method UnescapeCef(value: string) returns (output: string)
    ensures output == Unescape(value)
  {
    hide Unescape, Meaning;
    output := [];
    var index := 0;
    UnescapeEnds(value);
    while index < |value|
      invariant 0 <= index <= |value|
      invariant output + Unescape(value[index..]) == Unescape(value)
    {
      UnescapeFrom(value, index);
      if value[index] == '\\' && index + 1 < |value| {
        output := output + [Meaning(value[index + 1])];
        index := index + 2;
      } else {
        output := output + [value[index]];
        index := index + 1;
      }
    }
  }

  /** A value is left as it is exactly when no backslash has a character after it; otherwise it gets shorter. */
  lemma {:induction false} UnescapeChanges(s: string)
    ensures |Unescape(s)| <= |s|
    ensures Unescape(s) == s <==> (forall i :: 0 <= i < |s| - 1 ==> s[i] != '\\')
    ensures Unescape(s) == s <==> |Unescape(s)| == |s|
  {
    if s == [] {
    } else if s[0] == '\\' && |s| > 1 {
      UnescapeChanges(s[2..]);
    } else {
      UnescapeChanges(s[1..]);
      assert s == [s[0]] + s[1..];
      assert forall i :: 0 < i < |s| ==> s[i] == s[1..][i - 1];
    }
  }

  // ---------------------------------------------------------------- escaping, and the round trips

  function EscapeChar(c: char, separator: char): (r: string) {
    if c == '\\' || c == separator then ['\\', c] else [c]
  }

  /** How the formats write a field: backslashes and separators get a backslash before them. */
  function Escape(field: string, separator: char): string {
    if field == [] then [] else EscapeChar(field[0], separator) + Escape(field[1..], separator)
  }

  function EscapeAll(fields: seq<string>, separator: char): (r: seq<string>)
    ensures |r| == |fields|
    ensures forall i :: 0 <= i < |r| ==> r[i] == Escape(fields[i], separator)
  {
    seq(|fields|, i requires 0 <= i < |fields| => Escape(fields[i], separator))
  }

  function UnescapeAll(parts: seq<string>): (r: seq<string>)
    ensures |r| == |parts|
    ensures forall i :: 0 <= i < |r| ==> r[i] == Unescape(parts[i])
  {
    seq(|parts|, i requires 0 <= i < |parts| => Unescape(parts[i]))
  }

  /** Separators that are not themselves given a meaning after a backslash. */
  predicate Plain(separator: char) {
    separator != '\\' && separator != 'n' && separator != 'r' && separator != 't'
  }

  lemma {:induction false} UnescapeInvertsEscape(field: string, separator: char)
    requires Meaning(separator) == separator
    ensures Unescape(Escape(field, separator)) == field
  {
    if field != [] {
      var rest := Escape(field[1..], separator);
      UnescapeInvertsEscape(field[1..], separator);
      var s := EscapeChar(field[0], separator) + rest;
      if |EscapeChar(field[0], separator)| == 2 {
        assert s[2..] == rest;
      } else {
        assert s[1..] == rest;
      }
    }
  }

  lemma {:induction false} EscapeSnoc(field: string, c: char, separator: char)
    ensures Escape(field + [c], separator) == Escape(field, separator) + EscapeChar(c, separator)
  {
    if field == [] {
      assert field + [c] == [c];
      assert EscapeChar(c, separator) + [] == EscapeChar(c, separator);
    } else {
      assert (field + [c])[1..] == field[1..] + [c];
      EscapeSnoc(field[1..], c, separator);
    }
  }

  lemma {:induction false} BackslashesInPrefix(a: string, b: string, i: nat)
    requires i <= |a|
    ensures Backslashes(a + b, i) == Backslashes(a, i)
  {
    if i > 0 && a[i - 1] == '\\' { BackslashesInPrefix(a, b, i - 1); }
  }

  lemma {:induction false} BackslashesAfter(a: string, b: string, i: nat)
    requires i <= |b| && a != [] && a[|a| - 1] != '\\'
    ensures Backslashes(a + b, |a| + i) == Backslashes(b, i)
  {
    if i > 0 && b[i - 1] == '\\' { BackslashesAfter(a, b, i - 1); }
  }

  /** No separator in it cuts, and it escapes nothing of what follows. */
  predicate Closed(s: string, separator: char) {
    && Backslashes(s, |s|) % 2 == 0
    && forall i :: 0 <= i < |s| ==> !CutAt(s, separator, i)
  }

  lemma EscapeNothing(separator: char)
    ensures Escape([], separator) == []
  {
  }

  /** One more character, or a backslash and the character after it. */
  lemma ClosedMore(e: string, last: string, separator: char)
    requires separator != '\\' && Closed(e, separator)
    requires (|last| == 1 && last[0] != '\\' && last[0] != separator) || (|last| == 2 && last[0] == '\\')
    ensures Closed(e + last, separator)
  {
    var s := e + last;
    forall i | 0 <= i <= |e| ensures Backslashes(s, i) == Backslashes(e, i) {
      BackslashesInPrefix(e, last, i);
    }
    assert s[|e|] == last[0] && Backslashes(s, |e| + 1) == if last[0] == '\\' then Backslashes(e, |e|) + 1 else 0;
    forall i | 0 <= i < |s| ensures !CutAt(s, separator, i) {
      assert i < |e| ==> !CutAt(e, separator, i);
    }
  }

  lemma {:induction false} EscapedIsClosed(field: string, separator: char)
    requires separator != '\\'
    ensures Closed(Escape(field, separator), separator)
  {
    hide Escape;
    if field == [] {
      EscapeNothing(separator);
    } else {
      var c, shorter := field[|field| - 1], field[..|field| - 1];
      assert field == shorter + [c];
      EscapedIsClosed(shorter, separator);
      EscapeSnoc(shorter, c, separator);
      ClosedMore(Escape(shorter, separator), EscapeChar(c, separator), separator);
    }
  }

  function Shifted(cuts: seq<nat>, offset: nat): (r: seq<nat>)
    ensures |r| == |cuts| && forall k :: 0 <= k < |r| ==> r[k] == cuts[k] + offset
  {
    seq(|cuts|, k requires 0 <= k < |cuts| => cuts[k] + offset)
  }

  lemma {:induction false} NoCuts(s: string, separator: char, n: nat)
    requires n <= |s| && forall i :: 0 <= i < n ==> !CutAt(s, separator, i)
    ensures Cuts(s, separator, n) == []
  {
    if n > 0 { NoCuts(s, separator, n - 1); }
  }

  lemma CutsStep(s: string, separator: char, n: nat)
    requires n < |s|
    ensures Cuts(s, separator, n + 1) == Cuts(s, separator, n) + if CutAt(s, separator, n) then [n] else []
    ensures Cuts(s, separator, 0) == []
  {
    hide CutAt;
  }

  lemma FirstCut(e: string, separator: char, rest: string)
    requires separator != '\\' && Closed(e, separator)
    ensures Cuts(e + [separator] + rest, separator, |e| + 1) == [|e|]
  {
    var s := e + [separator] + rest;
    assert s == e + ([separator] + rest);
    forall i | 0 <= i <= |e| ensures Backslashes(s, i) == Backslashes(e, i) {
      BackslashesInPrefix(e, [separator] + rest, i);
    }
    forall i | 0 <= i < |e| ensures !CutAt(s, separator, i) { assert !CutAt(e, separator, i); }
    NoCuts(s, separator, |e|);
    CutsStep(s, separator, |e|);
  }

  lemma CutAfterClosed(e: string, separator: char, rest: string, i: nat)
    requires separator != '\\' && i < |rest|
    ensures CutAt(e + [separator] + rest, separator, |e| + 1 + i) == CutAt(rest, separator, i)
  {
    BackslashesAfter(e + [separator], rest, i);
  }

  lemma AfterNothing(cut: nat)
    ensures After(cut, []) == [cut]
  {
  }

  lemma AfterSnoc(cut: nat, cuts: seq<nat>, i: nat)
    ensures After(cut, cuts + [i]) == After(cut, cuts) + [cut + 1 + i]
  {
  }

  lemma {:induction false} CutsAfterClosed(e: string, separator: char, rest: string, m: nat)
    requires separator != '\\' && Closed(e, separator) && m <= |rest|
    ensures Cuts(e + [separator] + rest, separator, |e| + 1 + m) == After(|e|, Cuts(rest, separator, m))
    decreases m
  {
    hide Closed, CutAt, Cuts, After, Positions;
    if m == 0 {
      FirstCut(e, separator, rest);
      NoCuts(rest, separator, 0);
      AfterNothing(|e|);
    } else {
      var before := Cuts(rest, separator, m - 1);
      CutsAfterClosed(e, separator, rest, m - 1);
      AfterSnoc(|e|, before, m - 1);
      assert before + [] == before && After(|e|, before) + [] == After(|e|, before);
      CutAfterClosed(e, separator, rest, m - 1);
      CutsStep(rest, separator, m - 1);
      CutsStep(e + [separator] + rest, separator, |e| + m);
    }
  }

  /** Positions in what follows the first cut, counted from the start of the line. */
  function After(cut: nat, cuts: seq<nat>): (r: seq<nat>)
    ensures |r| == |cuts| + 1
  {
    [cut] + Shifted(cuts, cut + 1)
  }

  lemma {:induction false} AfterPositions(cut: nat, cuts: seq<nat>, n: nat)
    requires Positions(cuts, n)
    ensures Positions(After(cut, cuts), cut + 1 + n)
    ensures cuts != [] ==> After(cut, cuts)[..|cuts|] == After(cut, cuts[..|cuts| - 1])
    decreases |cuts|
  {
    if cuts == [] {
      assert After(cut, cuts) == [cut] && [cut][..0] == [];
    } else {
      AfterPositions(cut, cuts[..|cuts| - 1], cuts[|cuts| - 1]);
      assert After(cut, cuts)[..|cuts|] == After(cut, cuts[..|cuts| - 1]);
    }
  }

  lemma LastPosition(cuts: seq<nat>, n: nat)
    requires cuts != [] && Positions(cuts, n)
    ensures cuts[|cuts| - 1] < n && Positions(cuts[..|cuts| - 1], cuts[|cuts| - 1])
  {
  }

  lemma {:induction false} BetweenAfter(e: string, separator: char, rest: string, cuts: seq<nat>)
    requires Positions(cuts, |rest|)
    ensures Positions(After(|e|, cuts), |e + [separator] + rest|)
    ensures Between(e + [separator] + rest, After(|e|, cuts)) == [e] + Between(rest, cuts)
    decreases |cuts|
  {
    hide Positions;
    var s, all := e + [separator] + rest, After(|e|, cuts);
    AfterPositions(|e|, cuts, |rest|);
    if cuts == [] {
      assert s[..|e|] == e && s[|e| + 1..] == rest;
      assert all == [|e|] && all[..0] == [];
    } else {
      var last := cuts[|cuts| - 1];
      LastPosition(cuts, |rest|);
      BetweenAfter(e, separator, rest[..last], cuts[..|cuts| - 1]);
      assert s[..|e| + 1 + last] == e + [separator] + rest[..last];
      assert s[|e| + 1 + last + 1..] == rest[last + 1..];
    }
  }

  /** A closed field and its separator come off the front as one part. */
  lemma SplitField(e: string, separator: char, rest: string, maxsplit: int)
    requires separator != '\\' && Closed(e, separator) && maxsplit != 0
    ensures Split(e + [separator] + rest, separator, maxsplit)
         == [e] + Split(rest, separator, if maxsplit < 0 then maxsplit else maxsplit - 1)
  {
    hide Cuts, Between, Closed, Positions;
    var s, left := e + [separator] + rest, if maxsplit < 0 then maxsplit else maxsplit - 1;
    CutsAfterClosed(e, separator, rest, |rest|);
    assert Taken(s, separator, maxsplit, |s|) == After(|e|, Taken(rest, separator, left, |rest|));
    BetweenAfter(e, separator, rest, Taken(rest, separator, left, |rest|));
  }

  /** Escaped fields, each followed by the separator, and whatever comes after them. */
  function Line(fields: seq<string>, separator: char, tail: string): string {
    if fields == [] then tail
    else Escape(fields[0], separator) + [separator] + Line(fields[1..], separator, tail)
  }

  lemma {:induction false} SplitLine(fields: seq<string>, separator: char, tail: string, maxsplit: int)
    requires separator != '\\' && (maxsplit < 0 || |fields| <= maxsplit)
    ensures Split(Line(fields, separator, tail), separator, maxsplit)
         == EscapeAll(fields, separator)
            + Split(tail, separator, if maxsplit < 0 then maxsplit else maxsplit - |fields|)
    decreases |fields|
  {
    hide Split, Closed, Escape, CutAt, Backslashes;
    if fields == [] {
      var parts := Split(tail, separator, maxsplit);
      assert EscapeAll(fields, separator) == [] && [] + parts == parts;
    } else {
      EscapedIsClosed(fields[0], separator);
      SplitField(Escape(fields[0], separator), separator, Line(fields[1..], separator, tail), maxsplit);
      SplitLine(fields[1..], separator, tail, if maxsplit < 0 then maxsplit else maxsplit - 1);
      assert EscapeAll(fields, separator) == [Escape(fields[0], separator)] + EscapeAll(fields[1..], separator);
    }
  }

  /** A limit of k reads k escaped fields and leaves an arbitrary tail untouched, separators and all. */
  lemma HeaderRoundTrip(fields: seq<string>, separator: char, tail: string)
    requires Plain(separator)
    ensures
      var parts := Split(Line(fields, separator, tail), separator, |fields|);
      |parts| == |fields| + 1 && UnescapeAll(parts[..|fields|]) == fields && parts[|fields|] == tail
  {
    SplitLine(fields, separator, tail, |fields|);
    var parts := Split(Line(fields, separator, tail), separator, |fields|);
    assert parts == EscapeAll(fields, separator) + [tail];
    assert parts[..|fields|] == EscapeAll(fields, separator);
    forall i | 0 <= i < |fields| ensures Unescape(Escape(fields[i], separator)) == fields[i] {
      UnescapeInvertsEscape(fields[i], separator);
    }
  }

  lemma {:induction false} JoinIsLine(fields: seq<string>, separator: char)
    requires fields != []
    ensures Join(EscapeAll(fields, separator), [separator])
         == Line(fields[..|fields| - 1], separator, Escape(fields[|fields| - 1], separator))
  {
    var all := EscapeAll(fields, separator);
    if |fields| > 1 {
      JoinIsLine(fields[1..], separator);
      assert all[1..] == EscapeAll(fields[1..], separator);
      assert fields[1..][..|fields| - 2] == fields[..|fields| - 1][1..];
    }
  }

  lemma OnePart(field: string, separator: char)
    requires separator != '\\'
    ensures Split(Escape(field, separator), separator, -1) == [Escape(field, separator)]
  {
    hide Escape;
    EscapedIsClosed(field, separator);
    NoCuts(Escape(field, separator), separator, |Escape(field, separator)|);
  }

  /** Splitting the join of escaped fields and undoing the escapes gives the fields back. */
  lemma FieldsRoundTrip(fields: seq<string>, separator: char)
    requires fields != [] && Plain(separator)
    ensures UnescapeAll(Split(Join(EscapeAll(fields, separator), [separator]), separator, -1)) == fields
  {
    hide Split, Escape, Unescape, Join, Line, CutAt, Backslashes;
    var init, last := fields[..|fields| - 1], Escape(fields[|fields| - 1], separator);
    JoinIsLine(fields, separator);
    SplitLine(init, separator, last, -1);
    OnePart(fields[|fields| - 1], separator);
    assert EscapeAll(init, separator) + [last] == EscapeAll(fields, separator);
    forall i | 0 <= i < |fields| ensures Unescape(Escape(fields[i], separator)) == fields[i] {
      UnescapeInvertsEscape(fields[i], separator);
    }
  }

  predicate Inverts(field: string, separator: char) {
    UnescapeAll(Split(Escape(field, separator), separator, -1)) == [field]
  }

  /** The plain separators are exactly the ones for which every field survives. */
  lemma PlainIsNeeded(separator: char)
    ensures Plain(separator) <==> (forall field :: Inverts(field, separator))
  {
    if Plain(separator) {
      forall field ensures Inverts(field, separator) { FieldsRoundTrip([field], separator); }
    } else if separator == '\\' {
      var s := "\\\\";
      assert Escape("\\", '\\') == s by { assert Escape([], '\\') == []; }
      assert Cuts(s, '\\', 1) == [0] && Cuts(s, '\\', 2) == [0, 1];
      assert !Inverts("\\", '\\');
    } else {
      var s := ['\\', separator];
      assert Escape([separator], separator) == s by { assert Escape([], separator) == []; }
      assert Backslashes(s, 1) == 1;
      assert Cuts(s, separator, 1) == [] && Cuts(s, separator, 2) == [];
      assert Unescape(s) == [Meaning(separator)] by { assert s[2..] == []; }
      assert Split(s, separator, -1) == [s];
      assert UnescapeAll([s])[0] == [Meaning(separator)];
      assert [separator][0] == separator != [Meaning(separator)][0];
      assert !Inverts([separator], separator);
    }
  }

  // ---------------------------------------------------------------- control characters

  /** The letter that stands for a character after a backslash: line feed, carriage return and tab have their own. */
  function Letter(c: char): char {
    if c == '\U{0A}' then 'n' else if c == '\U{0D}' then 'r' else if c == '\U{09}' then 't' else c
  }

  function SpellChar(c: char, mark: char -> bool): (r: string) { if mark(c) then ['\\', Letter(c)] else [c] }

  /** A field as a writer may spell it that puts a backslash before the marked characters. */
  function Spell(field: string, mark: char -> bool): string {
    if field == [] then [] else SpellChar(field[0], mark) + Spell(field[1..], mark)
  }

  /** Backslashes are marked, and the letters that mean something else after a backslash are not. */
  predicate Readable(mark: char -> bool) { mark('\\') && !mark('n') && !mark('r') && !mark('t') }

  lemma {:induction false} SpellingUndone(field: string, mark: char -> bool)
    requires Readable(mark)
    ensures Unescape(Spell(field, mark)) == field
  {
    if field != [] {
      var c, rest := field[0], Spell(field[1..], mark);
      SpellingUndone(field[1..], mark);
      var s := SpellChar(c, mark) + rest;
      if mark(c) {
        assert s[2..] == rest;
      } else {
        assert s[1..] == rest;
      }
    }
  }

  /** Undoing the escapes gives every field back, control characters included, exactly for the readable spellings. */
  lemma ReadableIsNeeded(mark: char -> bool)
    ensures Readable(mark) <==> (forall field :: Unescape(Spell(field, mark)) == field)
  {
    if Readable(mark) {
      forall field ensures Unescape(Spell(field, mark)) == field { SpellingUndone(field, mark); }
    } else if !mark('\\') {
      var s := "\\\\";
      assert Spell("\\", mark) == "\\" by { assert Spell([], mark) == []; }
      assert Spell(s, mark) == s by { assert s[1..] == "\\"; }
      assert Unescape(s) == "\\" by { assert s[2..] == []; }
      assert Unescape(Spell(s, mark)) != s;
    } else {
      var c := if mark('n') then 'n' else if mark('r') then 'r' else 't';
      assert Spell([c], mark) == ['\\', c] by { assert Spell([], mark) == []; }
      assert Unescape(['\\', c]) == [Meaning(c)] by { assert ['\\', c][2..] == []; }
      assert Unescape(Spell([c], mark))[0] != [c][0];
    }
  }

  lemma {:induction false} SpellSnoc(field: string, c: char, mark: char -> bool)
    ensures Spell(field + [c], mark) == Spell(field, mark) + SpellChar(c, mark)
  {
    if field == [] {
      assert field + [c] == [c];
      assert SpellChar(c, mark) + [] == SpellChar(c, mark);
    } else {
      assert (field + [c])[1..] == field[1..] + [c];
      SpellSnoc(field[1..], c, mark);
    }
  }

  lemma {:induction false} SpelledIsClosed(field: string, mark: char -> bool, separator: char)
    requires separator != '\\' && mark('\\') && mark(separator)
    ensures Closed(Spell(field, mark), separator)
  {
    if field != [] {
      var c, shorter := field[|field| - 1], field[..|field| - 1];
      assert field == shorter + [c];
      SpelledIsClosed(shorter, mark, separator);
      SpellSnoc(shorter, c, mark);
      ClosedMore(Spell(shorter, mark), SpellChar(c, mark), separator);
    }
  }

  function SpellAll(fields: seq<string>, mark: char -> bool): (r: seq<string>)
    ensures |r| == |fields|
    ensures forall i :: 0 <= i < |r| ==> r[i] == Spell(fields[i], mark)
  {
    seq(|fields|, i requires 0 <= i < |fields| => Spell(fields[i], mark))
  }

  /** Parts in which no separator cuts come back from their join. */
  lemma {:induction false} ClosedParts(parts: seq<string>, separator: char)
    requires separator != '\\' && parts != [] && forall i :: 0 <= i < |parts| ==> Closed(parts[i], separator)
    ensures Split(Join(parts, [separator]), separator, -1) == parts
  {
    hide Split, Closed;
    if |parts| == 1 {
      ClosedPart(parts[0], separator);
    } else {
      ClosedParts(parts[1..], separator);
      SplitField(parts[0], separator, Join(parts[1..], [separator]), -1);
    }
  }

  lemma ClosedPart(part: string, separator: char)
    requires Closed(part, separator)
    ensures Split(part, separator, -1) == [part]
  {
    NoCuts(part, separator, |part|);
  }

  /** Fields of any characters, line feeds and tabs included, survive spelling, joining, splitting and unescaping. */
  lemma SpelledRoundTrip(fields: seq<string>, mark: char -> bool, separator: char)
    requires fields != [] && separator != '\\' && Readable(mark) && mark(separator)
    ensures UnescapeAll(Split(Join(SpellAll(fields, mark), [separator]), separator, -1)) == fields
  {
    hide Split, Spell, Unescape, Join, Closed;
    forall i | 0 <= i < |fields|
      ensures Closed(Spell(fields[i], mark), separator) && Unescape(Spell(fields[i], mark)) == fields[i]
    {
      SpelledIsClosed(fields[i], mark, separator);
      SpellingUndone(fields[i], mark);
    }
    ClosedParts(SpellAll(fields, mark), separator);
  }
}
