/** Removing quoted values and comments from SQL, against a one-pass automaton that never looks ahead. */
module SqlGuard {
  import opened Prelude

  // ---------------------------------------------------------------- the automaton

  /** Where the automaton is after a character; Dash and Slash hold one character back. */
  datatype Mode =
    | Code
    | Dash
    | Slash
    | LineComment
    | Block(depth: nat, last: char)     // inside `depth` comments; last is '/' or '*' if it may pair up, else ' '
    | Quote(quote: char)
    | MaybeClosed(quote: char)          // a quote character inside the literal: its end, or half of a doubled quote

  /** A character of plain code: a literal or comment leaves one blank. */
  function CodeStep(c: char): (Mode, string) {
    if c == '\'' || c == '"' then (Quote(c), " ")
    else if c == '-' then (Dash, "")
    else if c == '/' then (Slash, "")
    else (Code, [c])
  }

  function Before(prefix: string, next: (Mode, string)): (Mode, string) { (next.0, prefix + next.1) }

  function Step(m: Mode, c: char): (Mode, string) {
    match m
    case Code => CodeStep(c)
    case Dash => if c == '-' then (LineComment, " ") else Before("-", CodeStep(c))
    case Slash => if c == '*' then (Block(1, ' '), " ") else Before("/", CodeStep(c))
    case LineComment => (if c == '\n' then Code else LineComment, "")
    case Block(depth, last) =>
      if last == '/' && c == '*' then (Block(depth + 1, ' '), "")
      else if last == '*' && c == '/' then (if depth <= 1 then Code else Block(depth - 1, ' '), "")
      else (Block(depth, if c == '/' || c == '*' then c else ' '), "")
    case Quote(q) => (if c == q then MaybeClosed(q) else m, "")
    case MaybeClosed(q) => if c == q then (Quote(q), "") else CodeStep(c)
  }

  /** What is still held back at the end; a quote or block comment must not be open. */
  function Flush(m: Mode): Option<string> {
    match m
    case Code => Some("")
    case Dash => Some("-")
    case Slash => Some("/")
    case LineComment => Some("")
    case Block(_, _) => None
    case Quote(_) => None
    case MaybeClosed(_) => Some("")
  }

  function Prepend(prefix: string, rest: Option<string>): Option<string> {
    if rest.Some? then Some(prefix + rest.value) else None
  }

  function Run(m: Mode, s: string): Option<string>
    decreases s
  {
    if s == [] then Flush(m)
    else
      var (m', out) := Step(m, s[0]);
      Prepend(out, Run(m', s[1..]))
  }

  function ModeAfter(m: Mode, s: string): Mode
    decreases s
  {
    if s == [] then m else ModeAfter(Step(m, s[0]).0, s[1..])
  }

  /** The specification of scrub_sql: None is the ValueError. */
  function Scrubbed(s: string): Option<string> { Run(Code, s) }

  // ---------------------------------------------------------------- stepping facts

  lemma RunStep(m: Mode, s: string, i: nat)
    requires i < |s|
    ensures Run(m, s[i..]) == Prepend(Step(m, s[i]).1, Run(Step(m, s[i]).0, s[i + 1..]))
  {
    assert s[i..][1..] == s[i + 1..];
  }

  lemma RunEnd(m: Mode, s: string)
    ensures Run(m, s[|s|..]) == Flush(m)
  {
  }

  lemma PrependTwice(a: string, b: string, rest: Option<string>)
    ensures Prepend(a, Prepend(b, rest)) == Prepend(a + b, rest)
    ensures Prepend("", rest) == rest && "" + b == b
  {
    if rest.Some? {
      assert a + (b + rest.value) == (a + b) + rest.value;
      assert "" + rest.value == rest.value;
    }
  }

  /** A dash or slash that starts no comment is copied when the next character is read. */
  lemma HeldBack(m: Mode, s: string, i: nat)
    requires i <= |s| && (m == Dash || m == Slash)
    requires i < |s| ==> s[i] != (if m == Dash then '-' else '*')
    ensures Run(m, s[i..]) == Prepend(if m == Dash then "-" else "/", Run(Code, s[i..]))
  {
    var held := if m == Dash then "-" else "/";
    if i == |s| {
      RunEnd(m, s);
      RunEnd(Code, s);
      assert held + "" == held;
    } else {
      RunStep(m, s, i);
      RunStep(Code, s, i);
      PrependTwice(held, CodeStep(s[i]).1, Run(CodeStep(s[i]).0, s[i + 1..]));
    }
  }

  lemma ClosedQuote(q: char, s: string, i: nat)
    requires i <= |s| && (i < |s| ==> s[i] != q)
    ensures Run(MaybeClosed(q), s[i..]) == Run(Code, s[i..])
  {
    if i == |s| {
      RunEnd(MaybeClosed(q), s);
      RunEnd(Code, s);
    } else {
      RunStep(MaybeClosed(q), s, i);
      RunStep(Code, s, i);
    }
  }

  /** str.startswith(prefix, index) for a two-character prefix. */
  predicate StartsWith(s: string, a: char, b: char, i: nat) {
    i + 1 < |s| && s[i] == a && s[i + 1] == b
  }

  /** A character of a block comment that pairs with nothing is skipped. */
  lemma BlockSkip(depth: nat, s: string, i: nat)
    requires i < |s| && depth > 0 && !StartsWith(s, '/', '*', i) && !StartsWith(s, '*', '/', i)
    ensures Run(Block(depth, ' '), s[i..]) == Run(Block(depth, ' '), s[i + 1..])
  {
    var m := Block(depth, ' ');
    RunStep(m, s, i);
    PrependTwice("", "", Run(Step(m, s[i]).0, s[i + 1..]));
    if s[i] == '/' || s[i] == '*' {
      LastForgotten(depth, s, i + 1, s[i]);
    }
  }

  /** Half of a pair that is not completed is as good as any other character. */
  lemma LastForgotten(depth: nat, s: string, i: nat, last: char)
    requires i <= |s| && depth > 0 && (last == '/' || last == '*')
    requires i < |s| ==> s[i] != (if last == '/' then '*' else '/')
    ensures Run(Block(depth, last), s[i..]) == Run(Block(depth, ' '), s[i..])
  {
    if i == |s| {
      RunEnd(Block(depth, last), s);
      RunEnd(Block(depth, ' '), s);
    } else {
      RunStep(Block(depth, last), s, i);
      RunStep(Block(depth, ' '), s, i);
    }
  }

  // ---------------------------------------------------------------- the scanner

  /** statement.find("\n", index) */
  method FindNewline(s: string, index: nat) returns (end: int)
    requires index <= |s|
    ensures end == -1 || (index <= end < |s| && s[end] == '\n')
    ensures forall j :: index <= j < (if end == -1 then |s| else end) ==> s[j] != '\n'
  {
    end := index;
    while end < |s|
      invariant index <= end <= |s| && forall j :: index <= j < end ==> s[j] != '\n'
    {
      if s[end] == '\n' { return; }
      end := end + 1;
    }
    end := -1;
  }

  lemma {:induction false} LineSkip(s: string, i: nat, end: nat)
    requires i <= end <= |s| && forall j :: i <= j < end ==> s[j] != '\n'
    ensures Run(LineComment, s[i..]) == Run(LineComment, s[end..])
    decreases end - i
  {
    if i < end {
      RunStep(LineComment, s, i);
      PrependTwice("", "", Run(LineComment, s[i + 1..]));
      LineSkip(s, i + 1, end);
    }
  }

  /** The inner quote loop, from just after the opening quote. */
  method SkipQuote(s: string, start: nat, quote: char) returns (index: nat, ok: bool)
    requires start <= |s|
    ensures ok ==> start < index <= |s| && Run(Quote(quote), s[start..]) == Run(Code, s[index..])
    ensures !ok ==> Run(Quote(quote), s[start..]) == None
  {
    index := start;
    while index < |s|
      invariant start <= index <= |s|
      invariant Run(Quote(quote), s[start..]) == Run(Quote(quote), s[index..])
    {
      RunStep(Quote(quote), s, index);
      PrependTwice("", "", Run(Step(Quote(quote), s[index]).0, s[index + 1..]));
      if s[index] == quote {
        if index + 1 < |s| && s[index + 1] == quote {
          RunStep(MaybeClosed(quote), s, index + 1);
          PrependTwice("", "", Run(Quote(quote), s[index + 2..]));
          index := index + 2;
          continue;
        }
        ClosedQuote(quote, s, index + 1);
        index := index + 1;
        return index, true;
      }
      index := index + 1;
    }
    return index, false;
  }

  /** The nested-comment loop, from just after the opening marker. */
  method SkipBlock(s: string, start: nat) returns (index: nat, ok: bool)
    requires start <= |s|
    ensures ok ==> start <= index <= |s| && Run(Block(1, ' '), s[start..]) == Run(Code, s[index..])
    ensures !ok ==> Run(Block(1, ' '), s[start..]) == None
  {
    index := start;
    var depth := 1;
    while index < |s| && depth > 0
      invariant start <= index <= |s| && depth >= 0
      invariant Run(Block(1, ' '), s[start..]) == Run(if depth == 0 then Code else Block(depth, ' '), s[index..])
    {
      if StartsWith(s, '/', '*', index) {
        PairRead(depth, s, index);
        depth := depth + 1;
        index := index + 2;
      } else if StartsWith(s, '*', '/', index) {
        PairRead(depth, s, index);
        depth := depth - 1;
        index := index + 2;
      } else {
        BlockSkip(depth, s, index);
        index := index + 1;
      }
    }
    if depth > 0 {
      RunEnd(Block(depth, ' '), s);
    }
    return index, depth == 0;
  }

  /** An opening or closing marker inside a block comment is read in two steps. */
  lemma PairRead(depth: nat, s: string, i: nat)
    requires depth > 0 && (StartsWith(s, '/', '*', i) || StartsWith(s, '*', '/', i))
    ensures Run(Block(depth, ' '), s[i..]) ==
            Run(if s[i] == '/' then Block(depth + 1, ' ') else if depth == 1 then Code else Block(depth - 1, ' '),
                s[i + 2..])
  {
    RunStep(Block(depth, ' '), s, i);
    RunStep(Block(depth, s[i]), s, i + 1);
    var after := Step(Block(depth, s[i]), s[i + 1]).0;
    PrependTwice("", "", Run(after, s[i + 2..]));
  }

  /** scrub_sql */
  method ScrubSql(statement: string) returns (r: Option<string>)
    ensures r == Scrubbed(statement)
  {
    hide Step;
    var output: string := "";
    var index := 0;
    PrependTwice("", "", Scrubbed(statement));
    assert statement[0..] == statement;
    while index < |statement|
      invariant 0 <= index <= |statement|
      invariant Scrubbed(statement) == Prepend(output, Run(Code, statement[index..]))
      decreases |statement| - index
    {
      var c := statement[index];
      if c == '\'' || c == '"' {
        OpenQuote(statement, index);
        var ok;
        index, ok := SkipQuote(statement, index + 1, c);
        if !ok {
          return None;
        }
        PrependTwice(output, " ", Run(Code, statement[index..]));
        output := output + " ";
      } else if StartsWith(statement, '-', '-', index) {
        OpenLine(statement, index);
        var end := FindNewline(statement, index);
        LineRest(statement, index, end);
        index := if end < 0 then |statement| else end + 1;
        PrependTwice(output, " ", Run(Code, statement[index..]));
        output := output + " ";
      } else if StartsWith(statement, '/', '*', index) {
        OpenBlock(statement, index);
        var ok;
        index, ok := SkipBlock(statement, index + 2);
        if !ok {
          return None;
        }
        PrependTwice(output, " ", Run(Code, statement[index..]));
        output := output + " ";
      } else {
        CopyChar(statement, index);
        PrependTwice(output, [c], Run(Code, statement[index + 1..]));
        output := output + [c];
        index := index + 1;
      }
    }
    RunEnd(Code, statement);
    assert output + "" == output;
    return Some(output);
  }

  lemma OpenQuote(s: string, i: nat)
    requires i < |s| && (s[i] == '\'' || s[i] == '"')
    ensures Run(Code, s[i..]) == Prepend(" ", Run(Quote(s[i]), s[i + 1..]))
  {
    RunStep(Code, s, i);
  }

  lemma OpenLine(s: string, i: nat)
    requires StartsWith(s, '-', '-', i)
    ensures Run(Code, s[i..]) == Prepend(" ", Run(LineComment, s[i + 2..]))
  {
    RunStep(Code, s, i);
    RunStep(Dash, s, i + 1);
    PrependTwice("", " ", Run(LineComment, s[i + 2..]));
  }

  lemma LineRest(s: string, i: nat, end: int)
    requires StartsWith(s, '-', '-', i)
    requires end == -1 || (i <= end < |s| && s[end] == '\n')
    requires forall j :: i <= j < (if end == -1 then |s| else end) ==> s[j] != '\n'
    ensures Run(LineComment, s[i + 2..]) == Run(Code, s[if end < 0 then |s| else end + 1..])
  {
    if end < 0 {
      LineSkip(s, i + 2, |s|);
      RunEnd(LineComment, s);
      RunEnd(Code, s);
    } else {
      LineSkip(s, i + 2, end);
      RunStep(LineComment, s, end);
      PrependTwice("", "", Run(Code, s[end + 1..]));
    }
  }

  lemma OpenBlock(s: string, i: nat)
    requires StartsWith(s, '/', '*', i)
    ensures Run(Code, s[i..]) == Prepend(" ", Run(Block(1, ' '), s[i + 2..]))
  {
    RunStep(Code, s, i);
    RunStep(Slash, s, i + 1);
    PrependTwice("", " ", Run(Block(1, ' '), s[i + 2..]));
  }

  lemma CopyChar(s: string, i: nat)
    requires i < |s| && s[i] != '\'' && s[i] != '"' && !StartsWith(s, '-', '-', i) && !StartsWith(s, '/', '*', i)
    ensures Run(Code, s[i..]) == Prepend([s[i]], Run(Code, s[i + 1..]))
  {
    RunStep(Code, s, i);
    if s[i] == '-' {
      HeldBack(Dash, s, i + 1);
      PrependTwice("", "-", Run(Code, s[i + 1..]));
    } else if s[i] == '/' {
      HeldBack(Slash, s, i + 1);
      PrependTwice("", "/", Run(Code, s[i + 1..]));
    }
  }

  // ---------------------------------------------------------------- what the result is

  /** Rejected exactly when the text ends inside a quote or a block comment. */
  lemma {:induction false} RejectedIffOpen(m: Mode, s: string)
    ensures Run(m, s) == None <==> ModeAfter(m, s).Quote? || ModeAfter(m, s).Block?
    decreases s
  {
    if s != [] { RejectedIffOpen(Step(m, s[0]).0, s[1..]); }
  }

  /** No quote, and no comment marker, not even across the join of two copied stretches. */
  ghost predicate Clean(s: string) {
    && (forall i :: 0 <= i < |s| ==> s[i] != '\'' && s[i] != '"')
    && (forall i :: 0 <= i < |s| - 1 ==> !StartsWith(s, '-', '-', i) && !StartsWith(s, '/', '*', i))
  }

  lemma CleanCons(c: char, rest: string)
    requires Clean(rest) && c != '\'' && c != '"'
    requires rest != [] ==> !(c == '-' && rest[0] == '-') && !(c == '/' && rest[0] == '*')
    ensures Clean([c] + rest)
  {
    var s := [c] + rest;
    forall i | 0 <= i < |s| - 1 ensures !StartsWith(s, '-', '-', i) && !StartsWith(s, '/', '*', i) {
      if i > 0 { assert !StartsWith(rest, '-', '-', i - 1) && !StartsWith(rest, '/', '*', i - 1); }
    }
  }

  /** What a mode can still emit first: a held dash or slash comes out before anything else. */
  ghost predicate StartsSafely(m: Mode, out: string) {
    match m
    case Dash => out != [] && (out[0] == '-' || out[0] == ' ')
    case Slash => out != [] && (out[0] == '/' || out[0] == ' ')
    case _ => true
  }

  /** The first output character is the first input character, or the blank of a literal or comment. */
  lemma {:induction false} FirstOutput(m: Mode, s: string)
    requires Run(m, s).Some?
    ensures StartsSafely(m, Run(m, s).value)
    ensures m == Code && Run(m, s).value != [] ==> s != [] && (Run(m, s).value[0] == s[0] || Run(m, s).value[0] == ' ')
    decreases s
  {
    if s != [] {
      FirstOutput(Step(m, s[0]).0, s[1..]);
    }
  }

  lemma {:induction false} OutputClean(m: Mode, s: string)
    requires Run(m, s).Some?
    ensures Clean(Run(m, s).value)
    decreases s
  {
    if s != [] {
      var (m', out) := Step(m, s[0]);
      OutputClean(m', s[1..]);
      FirstOutput(m', s[1..]);
      var rest := Run(m', s[1..]).value;
      PrependClean(m, s[0], rest);
    }
  }

  /** A step writes at most two characters, never a quote, and never a pair that opens a comment. */
  lemma StepOutput(m: Mode, c: char)
    ensures
      var (next, out) := Step(m, c);
      && |out| <= 2
      && (forall i :: 0 <= i < |out| ==> out[i] != '\'' && out[i] != '"')
      && (|out| == 2 ==> !(out[0] == '-' && out[1] == '-') && !(out[0] == '/' && out[1] == '*'))
      && (|out| > 0 && out[|out| - 1] == '-' ==> next == Slash)
      && (|out| > 0 && out[|out| - 1] == '/' ==> next == Slash || next == Dash)
  {
  }

  lemma PrependClean(m: Mode, c: char, rest: string)
    requires Clean(rest) && StartsSafely(Step(m, c).0, rest)
    ensures Clean(Step(m, c).1 + rest)
  {
    hide Step, Clean;
    StepOutput(m, c);
    var (m', out) := Step(m, c);
    assert "" + rest == rest;
    if |out| == 1 {
      CleanCons(out[0], rest);
      assert out + rest == [out[0]] + rest;
    } else if |out| == 2 {
      CleanCons(out[1], rest);
      CleanCons(out[0], [out[1]] + rest);
      assert out + rest == [out[0]] + ([out[1]] + rest);
    }
  }

  /** The scrubbed text has no quote, no `--` and no opening comment marker. */
  lemma ScrubbedIsClean(s: string)
    requires Scrubbed(s).Some?
    ensures Clean(Scrubbed(s).value)
  {
    OutputClean(Code, s);
  }

  /** Clean text passes unchanged. */
  lemma {:induction false} CleanUnchanged(s: string)
    requires Clean(s)
    ensures Scrubbed(s) == Some(s)
  {
    if s != [] {
      CleanTail(s);
      CleanUnchanged(s[1..]);
      CopyChar(s, 0);
      assert s[0..] == s && s == [s[0]] + s[1..];
    }
  }

  lemma CleanTail(s: string)
    requires s != [] && Clean(s)
    ensures Clean(s[1..]) && !StartsWith(s, '-', '-', 0) && !StartsWith(s, '/', '*', 0)
  {
    var rest := s[1..];
    forall i | 0 <= i < |rest| - 1 ensures !StartsWith(rest, '-', '-', i) && !StartsWith(rest, '/', '*', i) {
      assert !StartsWith(s, '-', '-', i + 1) && !StartsWith(s, '/', '*', i + 1);
    }
    if |s| > 1 { assert !StartsWith(s, '-', '-', 0); }
  }

  /** A second pass changes nothing. */
  lemma ScrubIsIdempotent(s: string)
    requires Scrubbed(s).Some?
    ensures Scrubbed(Scrubbed(s).value) == Scrubbed(s)
  {
    hide Clean;
    ScrubbedIsClean(s);
    CleanUnchanged(Scrubbed(s).value);
  }

  // ---------------------------------------------------------------- literals

  /** The text as it stands between quotes: every quote character doubled. */
  function Doubled(text: string, quote: char): string {
    if text == [] then []
    else (if text[0] == quote then [quote, quote] else [text[0]]) + Doubled(text[1..], quote)
  }

  function Literal(text: string, quote: char): string { [quote] + Doubled(text, quote) + [quote] }

  /** The output of a prefix, without what it holds back. */
  function Emitted(m: Mode, s: string): string
    decreases s
  {
    if s == [] then "" else Step(m, s[0]).1 + Emitted(Step(m, s[0]).0, s[1..])
  }

  lemma {:induction false} RunOfTwo(m: Mode, a: string, b: string)
    ensures Run(m, a + b) == Prepend(Emitted(m, a), Run(ModeAfter(m, a), b))
    decreases a
  {
    if a == [] {
      assert a + b == b;
      PrependTwice("", "", Run(m, b));
    } else {
      assert (a + b)[1..] == a[1..] + b;
      var (m', out) := Step(m, a[0]);
      RunOfTwo(m', a[1..], b);
      PrependTwice(out, Emitted(m', a[1..]), Run(ModeAfter(m', a[1..]), b));
    }
  }

  /** Inside a literal the doubled text is swallowed and the literal stays open. */
  lemma {:induction false} DoubledStaysOpen(text: string, quote: char)
    ensures ModeAfter(Quote(quote), Doubled(text, quote)) == Quote(quote)
    ensures Emitted(Quote(quote), Doubled(text, quote)) == ""
  {
    if text != [] {
      DoubledStaysOpen(text[1..], quote);
      var rest := Doubled(text[1..], quote);
      if text[0] == quote {
        var s := [quote, quote] + rest;
        assert s[1..] == [quote] + rest && s[1..][1..] == rest;
        assert Step(Quote(quote), quote) == (MaybeClosed(quote), "");
        assert Step(MaybeClosed(quote), quote) == (Quote(quote), "");
        assert ModeAfter(Quote(quote), s) == ModeAfter(MaybeClosed(quote), s[1..]) == ModeAfter(Quote(quote), rest);
        assert Emitted(MaybeClosed(quote), s[1..]) == "" + Emitted(Quote(quote), rest);
        assert Emitted(Quote(quote), s) == "" + Emitted(MaybeClosed(quote), s[1..]);
      } else {
        var s := [text[0]] + rest;
        assert s[1..] == rest;
        assert Step(Quote(quote), text[0]) == (Quote(quote), "");
        assert Emitted(Quote(quote), s) == "" + Emitted(Quote(quote), rest);
      }
    }
  }

  /** Plain code, in which a quote character opens a literal. */
  predicate InCode(m: Mode, quote: char) {
    m == Code || m == Dash || m == Slash || (m.MaybeClosed? && m.quote != quote)
  }

  lemma LiteralSwallowed(m: Mode, text: string, quote: char)
    requires (quote == '\'' || quote == '"') && InCode(m, quote)
    ensures ModeAfter(m, Literal(text, quote)) == MaybeClosed(quote)
    ensures Emitted(m, Literal(text, quote)) == Step(m, quote).1
  {
    var body, tail := Doubled(text, quote), [quote];
    var s := Literal(text, quote);
    assert s[1..] == body + tail;
    DoubledStaysOpen(text, quote);
    AfterTwo(Quote(quote), body, tail);
    assert Step(m, quote).0 == Quote(quote);
    assert tail[1..] == [];
    assert ModeAfter(Quote(quote), tail) == MaybeClosed(quote);
    assert Emitted(Quote(quote), tail) == "" + Emitted(MaybeClosed(quote), []);
  }

  lemma {:induction false} AfterTwo(m: Mode, a: string, b: string)
    ensures ModeAfter(m, a + b) == ModeAfter(ModeAfter(m, a), b)
    ensures Emitted(m, a + b) == Emitted(m, a) + Emitted(ModeAfter(m, a), b)
    decreases a
  {
    hide Step;
    if a == [] {
      assert a + b == b;
    } else {
      assert (a + b)[1..] == a[1..] + b;
      AfterTwo(Step(m, a[0]).0, a[1..], b);
    }
  }

  /** The text of a properly quoted literal never reaches the console checks: replacing it changes nothing. */
  lemma LiteralTextIrrelevant(before: string, text: string, other: string, quote: char, after: string)
    requires quote == '\'' || quote == '"'
    requires InCode(ModeAfter(Code, before), quote)
    ensures Scrubbed(before + Literal(text, quote) + after) == Scrubbed(before + Literal(other, quote) + after)
  {
    hide Run, ModeAfter, Emitted, Literal, Step;
    var m := ModeAfter(Code, before);
    LiteralSwallowed(m, text, quote);
    LiteralSwallowed(m, other, quote);
    RunOfTwo(Code, before, Literal(text, quote) + after);
    RunOfTwo(Code, before, Literal(other, quote) + after);
    RunOfTwo(m, Literal(text, quote), after);
    RunOfTwo(m, Literal(other, quote), after);
    assert before + Literal(text, quote) + after == before + (Literal(text, quote) + after);
    assert before + Literal(other, quote) + after == before + (Literal(other, quote) + after);
  }
}
