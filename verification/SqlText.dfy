/** The text that a MERGE becomes, byte by byte, against the sizes that are estimated for it. */
module SqlText {
  import opened Prelude
  import opened Text
  import opened Batcher
  import opened Preflight
  import opened Lake
  import opened Plans
  import SqlGuard

  // ---------------------------------------------------------------- UTF-8

  type Byte = b: int | 0 <= b < 256

  /** RFC 3629, section 3. */
  function Encode(c: char): seq<Byte> {
    var x := c as int;
    if x < 0x80 then [x]
    else if x < 0x800 then [0xC0 + x / 0x40, 0x80 + x % 0x40]
    else if x < 0x1_0000 then [0xE0 + x / 0x1000, 0x80 + x / 0x40 % 0x40, 0x80 + x % 0x40]
    else [0xF0 + x / 0x4_0000, 0x80 + x / 0x1000 % 0x40, 0x80 + x / 0x40 % 0x40, 0x80 + x % 0x40]
  }

  function Utf8(s: string): seq<Byte> {
    if s == [] then [] else Encode(s[0]) + Utf8(s[1..])
  }

  /** The six bits that a continuation byte adds to what came before it. */
  function Continued(high: int, b: Byte): int { high * 0x40 + b as int - 0x80 }

  /** The code point at the front, and the bytes after it. */
  function Decode(bytes: seq<Byte>): Option<(int, seq<Byte>)> {
    if bytes == [] then None
    else
      var x, n := bytes[0] as int, |bytes|;
      if x < 0x80 then Some((x, bytes[1..]))
      else if 0xC0 <= x < 0xE0 && n >= 2 then Some((Continued(x - 0xC0, bytes[1]), bytes[2..]))
      else if 0xE0 <= x < 0xF0 && n >= 3 then
        Some((Continued(Continued(x - 0xE0, bytes[1]), bytes[2]), bytes[3..]))
      else if 0xF0 <= x && n >= 4 then
        Some((Continued(Continued(Continued(x - 0xF0, bytes[1]), bytes[2]), bytes[3]), bytes[4..]))
      else None
  }

  lemma DecodeEncoded(c: char, rest: seq<Byte>)
    ensures Decode(Encode(c) + rest) == Some((c as int, rest))
  {
    var x := c as int;
    var bytes := Encode(c) + rest;
    assert bytes[|Encode(c)|..] == rest;
    assert x / 0x1000 / 0x40 == x / 0x4_0000 && x / 0x40 / 0x40 == x / 0x1000;
  }

  /** No two texts have the same bytes. */
  lemma {:induction false} Utf8Injective(a: string, b: string)
    requires Utf8(a) == Utf8(b)
    ensures a == b
  {
    if a != [] { DecodeEncoded(a[0], Utf8(a[1..])); }
    if b != [] { DecodeEncoded(b[0], Utf8(b[1..])); }
    if a != [] && b != [] {
      assert a[0] as int == b[0] as int;
      Utf8Injective(a[1..], b[1..]);
      assert a == [a[0]] + a[1..] && b == [b[0]] + b[1..];
    }
  }

  lemma {:induction false} Utf8Snoc(s: string, c: char)
    ensures Utf8(s + [c]) == Utf8(s) + Encode(c)
  {
    if s == [] {
      assert s + [c] == [c] && [c][1..] == [];
    } else {
      assert (s + [c])[1..] == s[1..] + [c];
      Utf8Snoc(s[1..], c);
    }
  }

  lemma {:induction false} Utf8OfTwo(a: string, b: string)
    ensures Utf8(a + b) == Utf8(a) + Utf8(b)
  {
    if a == [] {
      assert a + b == b;
    } else {
      assert (a + b)[1..] == a[1..] + b;
      Utf8OfTwo(a[1..], b);
    }
  }

  lemma {:induction false} Utf8Length(s: string)
    ensures |Utf8(s)| == Utf8Size(s)
  {
    if s != [] {
      var n := |s| - 1;
      assert s == s[..n] + [s[n]];
      Utf8Length(s[..n]);
      Utf8Snoc(s[..n], s[n]);
    }
  }

  // ---------------------------------------------------------------- literals

  lemma {:induction false} DoubledSnoc(s: string, c: char, quote: char)
    ensures SqlGuard.Doubled(s + [c], quote) == SqlGuard.Doubled(s, quote) + if c == quote then [quote, quote] else [c]
  {
    if s == [] {
      assert s + [c] == [c] && [c][1..] == [];
    } else {
      assert (s + [c])[1..] == s[1..] + [c];
      DoubledSnoc(s[1..], c, quote);
    }
  }

  lemma {:induction false} DoubledSize(s: string)
    ensures |Utf8(SqlGuard.Doubled(s, '\''))| == Utf8Size(s) + Apostrophes(s)
  {
    if s != [] {
      var n := |s| - 1;
      var front, last := SqlGuard.Doubled(s[..n], '\''), if s[n] == '\'' then "''" else [s[n]];
      assert s == s[..n] + [s[n]];
      DoubledSize(s[..n]);
      DoubledSnoc(s[..n], s[n], '\'');
      Utf8OfTwo(front, last);
      assert last[1..] == if s[n] == '\'' then "'" else [];
      assert "'"[1..] == [];
    }
  }

  predicate Textual(v: Value) { v.Null? || v.Str? }

  /**
   * How the client may write bound values: NULL, a quoted string with every apostrophe doubled, and for times and
   * other values any text within the margin that the estimate leaves for them.
   */
  ghost predicate Renders(render: Value -> string) {
    && render(Null) == "NULL"
    && (forall s :: render(Str(s)) == SqlGuard.Literal(s, '\''))
    && |Utf8(render(Timestamp))| <= 48
    && (forall text :: |Utf8(render(Other(text)))| <= |Utf8(text)| + 12)
  }

  lemma AsciiByte(c: char)
    requires c < '\U{80}'
    ensures |Utf8([c])| == 1
  {
    assert [c][1..] == [];
  }

  /** The estimate of a string is the number of bytes of its literal; the other values are charged a margin. */
  lemma PreparedBytes(v: Value, render: Value -> string)
    requires Renders(render)
    ensures |Utf8(render(v))| <= PreparedSize(v) && (Textual(v) ==> |Utf8(render(v))| == PreparedSize(v))
    ensures v.Timestamp? ==> PreparedSize(v) == 48
    ensures v.Other? ==> PreparedSize(v) == |Utf8(v.rendered)| + 12
  {
    hide Encode;
    match v
    case Null => NullLength();
    case Str(s) =>
      var body := SqlGuard.Doubled(s, '\'');
      DoubledSize(s);
      Utf8OfTwo(['\''] + body, ['\'']);
      Utf8OfTwo(['\''], body);
      AsciiByte('\'');
    case Timestamp =>
    case Other(rendered) => Utf8Length(rendered);
  }

  lemma NullLength()
    ensures |Utf8("NULL")| == 4
  {
    hide Utf8, Encode;
    AsciiByte('N');
    AsciiByte('U');
    AsciiByte('L');
    Utf8OfTwo("N", "U");
    Utf8OfTwo("NU", "L");
    Utf8OfTwo("NUL", "L");
    assert "N" + "U" == "NU" && "NU" + "L" == "NUL" && "NUL" + "L" == "NULL";
  }

  /** The literals of a row, each with the comma that follows it. */
  function RowText(values: seq<Value>, render: Value -> string): string {
    if values == [] then "" else render(values[0]) + "," + RowText(values[1..], render)
  }

  predicate AllTextual(values: seq<Value>) { forall v :: v in values ==> Textual(v) }

  lemma {:induction false} RowBytes(values: seq<Value>, render: Value -> string)
    requires Renders(render)
    ensures |Utf8(RowText(values, render))| <= ValuesSize(values)
    ensures AllTextual(values) ==> |Utf8(RowText(values, render))| == ValuesSize(values)
  {
    hide Utf8, PreparedSize, Renders;
    if values == [] {
      NoBytes();
    } else {
      RowBytes(values[1..], render);
      PreparedBytes(values[0], render);
      Utf8OfTwo(render(values[0]) + ",", RowText(values[1..], render));
      Utf8OfTwo(render(values[0]), ",");
      AsciiByte(',');
    }
  }

  lemma NoBytes()
    ensures Utf8("") == []
  {
  }

  // ---------------------------------------------------------------- statements

  /** The MERGE for k rows, with a question mark for every bound value. */
  function MergeText(t: TableSpec, k: nat): string {
    "MERGE INTO " + t.name + " AS target USING (VALUES " + Join(Repeat(ValueGroup(t), k), ", ") + ") AS source ("
    + Aliases(t) + ") " + "ON target.event_id = source.event_id "
    + "WHEN NOT MATCHED THEN INSERT (" + Aliases(t) + ") VALUES (" + Inserts(t) + ")"
  }

  lemma {:induction false} GroupsLength(group: string, k: nat)
    requires k > 0
    ensures |Join(Repeat(group, k), ", ")| == k * |group| + 2 * (k - 1)
  {
    if k > 1 {
      GroupsLength(group, k - 1);
      assert Repeat(group, k)[1..] == Repeat(group, k - 1);
      assert k * |group| == |group| + (k - 1) * |group|;
    }
  }

  lemma MergeTextLength(t: TableSpec, k: nat)
    requires k > 0
    ensures |MergeText(t, k)| == MergeFixed(t) - 127 + k * |ValueGroup(t)| + 2 * (k - 1)
  {
    hide Join, Repeat, Prefixed;
    GroupsLength(ValueGroup(t), k);
  }

  /** What merging these rows is estimated at. */
  function Estimate(t: TableSpec, rows: seq<seq<Value>>): nat {
    if rows == [] then MergeFixed(t) else Estimate(t, rows[..|rows| - 1]) + MergeRow(t, rows[|rows| - 1])
  }

  function AllValues(rows: seq<seq<Value>>): seq<Value> {
    if rows == [] then [] else AllValues(rows[..|rows| - 1]) + rows[|rows| - 1]
  }

  lemma NoValues()
    ensures ValuesSize([]) == 0
  {
  }

  lemma {:induction false} EstimateParts(t: TableSpec, rows: seq<seq<Value>>)
    ensures Estimate(t, rows) == MergeFixed(t) + |rows| * |ValueGroup(t)| + ValuesSize(AllValues(rows))
  {
    hide MergeFixed, ValueGroup, ValuesSize;
    if rows == [] {
      assert ValuesSize([]) == 0 by { NoValues(); }
    } else {
      var n := |rows| - 1;
      EstimateParts(t, rows[..n]);
      SizesAdd(AllValues(rows[..n]), rows[n]);
      assert (n + 1) * |ValueGroup(t)| == n * |ValueGroup(t)| + |ValueGroup(t)|;
    }
  }

  /** The characters of the statement and the bytes of the literals bound to it, each with its comma. */
  function TextSize(t: TableSpec, rows: seq<seq<Value>>, render: Value -> string): nat {
    |MergeText(t, |rows|)| + |Utf8(RowText(AllValues(rows), render))|
  }

  /**
   * The statement and the literals bound to it are as long as the estimate allows for plus the separators between
   * the rows, which the estimate does not count, less 129: a statement of up to 64 rows is shorter than its
   * estimate, and one of 65 or more rows of texts is longer.
   */
  lemma StatementSize(t: TableSpec, rows: seq<seq<Value>>, render: Value -> string)
    requires rows != [] && Renders(render)
    ensures TextSize(t, rows, render) <= Estimate(t, rows) + 2 * |rows| - 129
    ensures AllTextual(AllValues(rows)) ==> TextSize(t, rows, render) == Estimate(t, rows) + 2 * |rows| - 129
  {
    hide MergeText, Utf8, RowText, AllValues, Estimate, ValueGroup, MergeFixed, Renders;
    MergeTextLength(t, |rows|);
    EstimateParts(t, rows);
    RowBytes(AllValues(rows), render);
  }

  /**
   * What the two checks mean for the statement that carries one row alone: for a row of texts each decides exactly
   * whether that statement is within a length, and no row that passes makes it longer.
   */
  lemma ChecksMeasureText(t: TableSpec, values: seq<Value>, maxBytes: int, render: Value -> string)
    requires t.columns != [] && Renders(render)
    ensures PassesCheck(t, values, maxBytes) ==> TextSize(t, [values], render) <= maxBytes + Gap(t) - 127
    ensures !RaisesInMerge(t, values, maxBytes) ==> TextSize(t, [values], render) <= maxBytes - 127
    ensures AllTextual(values) ==>
              && (PassesCheck(t, values, maxBytes) <==> TextSize(t, [values], render) <= maxBytes + Gap(t) - 127)
              && (RaisesInMerge(t, values, maxBytes) <==> TextSize(t, [values], render) > maxBytes - 127)
  {
    hide CheckRow, CheckFixed, MergeRow, MergeFixed, TextSize, Gap, Renders, AllTextual;
    OneRow(t, values);
    StatementSize(t, [values], render);
    SizeGap(t, values);
  }

  lemma OneRow(t: TableSpec, values: seq<Value>)
    ensures AllValues([values]) == values && Estimate(t, [values]) == MergeRow(t, values) + MergeFixed(t)
  {
    assert [values][..0] == [];
    assert AllValues([]) + values == values;
  }

  // ---------------------------------------------------------------- what a run sends

  /** The column values of a batch. */
  function RowsOf(k: Kind, batch: seq<EventRow>): (rows: seq<seq<Value>>)
    ensures |rows| == |batch|
    ensures forall i :: 0 <= i < |batch| ==> rows[i] == ValuesFor(k, batch[i].value.event)
  {
    seq(|batch|, i requires 0 <= i < |batch| => ValuesFor(k, batch[i].value.event))
  }

  lemma {:induction false} EstimateIsTotal(k: Kind, batch: seq<Sized<EventRow>>, cfg: Config)
    requires forall i :: 0 <= i < |batch| ==>
               batch[i].size == MergeRow(cfg.Spec(k), ValuesFor(k, batch[i].item.value.event))
    ensures Estimate(cfg.Spec(k), RowsOf(k, Strip(batch))) == MergeFixed(cfg.Spec(k)) + Total(batch)
  {
    hide MergeRow, MergeFixed, ValuesFor;
    StripLength(batch);
    if batch != [] {
      var n := |batch| - 1;
      var rows := RowsOf(k, Strip(batch));
      EstimateIsTotal(k, batch[..n], cfg);
      assert batch == batch[..n] + [batch[n]];
      StripSnoc(batch[..n], batch[n]);
      StripLength(batch[..n]);
      TotalSnoc(batch[..n], batch[n]);
      assert rows[..n] == RowsOf(k, Strip(batch[..n]));
      assert rows[n] == ValuesFor(k, batch[n].item.value.event);
    }
  }

  /** Every statement holds at most the configured number of rows and is estimated within the configured bytes. */
  lemma StatementsWithinLimits(k: Kind, rows: seq<EventRow>, cfg: Config, st: Statement)
    requires cfg.Valid() && st in StatementsFor(k, rows, cfg)
    ensures 0 < |st.batch| <= cfg.maxRows && Estimate(cfg.Spec(st.kind), RowsOf(st.kind, st.batch)) <= cfg.maxBytes
  {
    hide MergeRow, MergeFixed, ValuesFor, SizedRows, Sent, Estimate, RowsOf, StatementsOf, Strip, Concat;
    var sized := SizedRows(k, rows, cfg);
    var sent := Sent(sized, cfg.Limits(k));
    StripSized(k, rows, cfg);
    SentIsPrefix(sized, cfg.Limits(k));
    StatementsAt(k, sent);
    var i :| 0 <= i < |sent| && StatementsOf(k, sent)[i] == st;
    StripLength(sent[i]);
    forall j | 0 <= j < |sent[i]|
      ensures sent[i][j].size == MergeRow(cfg.Spec(k), ValuesFor(k, sent[i][j].item.value.event))
    {
      InConcat(sent, i, j);
      assert sent[i][j] in sized[..FirstOversize(sized, cfg.Limits(k))];
    }
    EstimateIsTotal(k, sent[i], cfg);
  }

  lemma {:induction false} InConcat<T>(batches: seq<seq<T>>, i: nat, j: nat)
    requires i < |batches| && j < |batches[i]|
    ensures batches[i][j] in Concat(batches)
  {
    var n := |batches| - 1;
    if i < n { InConcat(batches[..n], i, j); }
  }

  /**
   * So the text of a statement that a run sends exceeds the configured bytes by less than two for each of its rows,
   * and not at all up to 64 rows.
   */
  lemma SentTextBounded(items: seq<EventRow>, cfg: Config, st: Statement, render: Value -> string)
    requires cfg.Valid() && st in Plan(items, cfg).0 && Renders(render)
    ensures TextSize(cfg.Spec(st.kind), RowsOf(st.kind, st.batch), render) <= cfg.maxBytes + 2 * |st.batch| - 129
  {
    hide StatementsFor, NoOversize, Checked, TextSize, Estimate, RowsOf, AllValues, Renders;
    var valid, invalid := Parsed(items, true), Parsed(items, false);
    var k, rows := Raw, items;
    if st !in StatementsFor(Raw, items, cfg) { k, rows := Normalized, valid; }
    if k != Raw && st !in StatementsFor(Normalized, valid, cfg) { k, rows := Quarantine, invalid; }
    assert st in StatementsFor(k, rows, cfg);
    StatementsWithinLimits(k, rows, cfg, st);
    StatementSize(cfg.Spec(st.kind), RowsOf(st.kind, st.batch), render);
  }
}
