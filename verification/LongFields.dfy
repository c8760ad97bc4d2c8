/**
 * One long extension field: a LEEF line, the rows that parsing and normalizing it give, and the size at which its
 * ingestion stops halfway.
 */
module LongFields {
  import opened Prelude
  import opened Text
  import opened Preflight
  import opened Lake
  import opened Plans
  import opened TrinoRuns
  import opened Refusals
  import Escaping
  import Identity

  // ---------------------------------------------------------------- sizes of texts and rows

  function Weight(s: string): nat { Utf8Size(s) + Apostrophes(s) }

  lemma {:induction false} WeightOfTwo(a: string, b: string)
    ensures Weight(a + b) == Weight(a) + Weight(b)
  {
    if b == [] {
      assert a + b == a;
    } else {
      assert (a + b)[..|a + b| - 1] == a + b[..|b| - 1];
      WeightOfTwo(a, b[..|b| - 1]);
    }
  }

  lemma {:induction false} WeightBound(s: string)
    ensures Utf8Size(s) <= Weight(s) <= 5 * |s|
  {
    if s != [] { WeightBound(s[..|s| - 1]); }
  }

  /** ASCII text without apostrophes: what it adds to a statement is its length. */
  predicate Bare(s: string) { forall c :: c in s ==> c < '\U{80}' && c != '\'' }

  lemma {:induction false} BareWeight(s: string)
    requires Bare(s)
    ensures Weight(s) == |s|
  {
    if s != [] {
      var n := |s| - 1;
      assert s[n] in s && forall c :: c in s[..n] ==> c in s;
      BareWeight(s[..n]);
    }
  }

  function Fill(n: nat): (r: string)
    ensures |r| == n && Bare(r) && forall c :: c in r ==> c == 'a'
  {
    seq(n, _ => 'a')
  }

  predicate Small(v: Value) {
    match v
    case Str(s) => |s| <= 64
    case Other(s) => |s| <= 64
    case _ => true
  }

  lemma {:induction false} SmallSize(values: seq<Value>)
    requires forall i :: 0 <= i < |values| ==> Small(values[i])
    ensures ValuesSize(values) <= 340 * |values|
  {
    if values != [] {
      match values[0] {
        case Str(s) => WeightBound(s);
        case Other(s) => WeightBound(s);
        case _ =>
      }
      SmallSize(values[1..]);
    }
  }

  // ---------------------------------------------------------------- the line

  const HEADER := ["1.0", "Acme", "Gate", "2", "login"]

  function Extension(n: nat): string { "note=" + Fill(n) }

  /** A finding with one extension field of n letters, without time, severity or addresses. */
  function LeefLine(n: nat): string { "LEEF:" + Escaping.Line(HEADER, '|', Extension(n)) }

  const LINE_HEAD := "LEEF:" + Escaping.Line(HEADER, '|', "")

  lemma {:induction false} EscapePlain(s: string, separator: char)
    requires '\\' !in s && separator !in s
    ensures Escaping.Escape(s, separator) == s
  {
    if s != [] { EscapePlain(s[1..], separator); }
  }

  /** A text without the separator and without backslashes is a single field. */
  lemma OneField(s: string, separator: char)
    requires separator !in s
    ensures Escaping.Split(s, separator, -1) == [s]
  {
    hide Escaping.Split;
    Escaping.SplitConserves(s, separator, -1);
    forall i | 0 <= i < |s| ensures !Escaping.CutAt(s, separator, i) { assert s[i] in s; }
    assert Escaping.CutSet(s, separator, |s|) == {};
  }

  predicate PlainField(field: string, separator: char) { '\\' !in field && separator !in field }

  /** Fields that need no escaping. */
  lemma {:induction false} PlainLine(fields: seq<string>, separator: char, tail: string)
    requires forall i :: 0 <= i < |fields| ==> PlainField(fields[i], separator)
    ensures Escaping.EscapeAll(fields, separator) == fields
    ensures Escaping.Line(fields, separator, tail) == Escaping.Line(fields, separator, "") + tail
    ensures |Escaping.Line(fields, separator, "")| == LengthSum(fields) + |fields|
  {
    if fields != [] {
      EscapePlain(fields[0], separator);
      PlainLine(fields[1..], separator, tail);
    }
    forall i | 0 <= i < |fields| ensures Escaping.Escape(fields[i], separator) == fields[i] {
      EscapePlain(fields[i], separator);
    }
  }

  lemma HeaderFields()
    ensures forall i :: 0 <= i < |HEADER| ==> PlainField(HEADER[i], '|')
    ensures |HEADER| == 5 && LengthSum(HEADER) == 17
  {
    hide LengthSum;
    UpToEight(HEADER);
  }

  lemma LeefLineHead(n: nat)
    ensures LeefLine(n) == LINE_HEAD + Extension(n) && |LINE_HEAD| == 27
    ensures LeefLine(n)[5..] == Escaping.Line(HEADER, '|', Extension(n))
  {
    hide Escaping.Line, Extension, LengthSum, HEADER, PlainField;
    HeaderFields();
    PlainLine(HEADER, '|', Extension(n));
  }

  lemma LeefHeader(n: nat)
    ensures Escaping.Split(LeefLine(n)[5..], '|', 5) == HEADER + [Extension(n)]
  {
    hide Escaping.Split, Escaping.Line, Escaping.EscapeAll, Extension, LengthSum, HEADER, PlainField, LeefLine;
    var tail := Extension(n);
    HeaderFields();
    LeefLineHead(n);
    PlainLine(HEADER, '|', tail);
    Escaping.HeaderRoundTrip(HEADER, '|', tail);
    Escaping.SplitLine(HEADER, '|', tail, 5);
    var rest := Escaping.Split(tail, '|', 0);
    assert (HEADER + rest)[5] == tail;
    assert rest == [tail];
  }

  /** How the parser reads it: the header fields, and one extension field that needs no unescaping. */
  lemma LeefFields(n: nat)
    ensures Escaping.Split(LeefLine(n)[5..], '|', 5) == HEADER + [Extension(n)]
    ensures Escaping.Split(Extension(n), '\t', -1) == [Extension(n)]
    ensures Escaping.Unescape(Fill(n)) == Fill(n)
  {
    hide Escaping.Split, Escaping.Unescape, LeefLine, HEADER;
    LeefHeader(n);
    assert '\t' !in "note=";
    OneField(Extension(n), '\t');
    Escaping.UnescapeChanges(Fill(n));
  }

  // ---------------------------------------------------------------- its rows

  /** SHA-256 as hexadecimal text. */
  ghost predicate Hexadecimal(digest: string -> string) {
    forall s :: |digest(s)| == 64 && forall c :: c in digest(s) ==> '0' <= c <= '9' || 'a' <= c <= 'f'
  }

  /** A UUID as text. */
  predicate RunText(run: string) {
    |run| == 36 && forall c :: c in run ==> '0' <= c <= '9' || 'a' <= c <= 'f' || c == '-'
  }

  /** The line as it arrives from Kafka. */
  function LeefRecord(n: nat): Identity.Record {
    Identity.Record("raw-app-logs", 0, 17, Identity.Decoded(LeefLine(n), true))
  }

  function LeefId(digest: string -> string, n: nat): string {
    Identity.EventId(digest, Identity.SourceOf(LeefRecord(n)), 17, LeefLine(n))
  }

  const ORIGIN: seq<Value> := [Str("kafka:raw-app-logs:0"), Str("raw-app-logs"), Str("leef"), Other("17"), Timestamp]

  const PARSED: seq<Value> := [Str("leef"), Str("1.1.0"), Other("1.0"), Other("True")]

  /** _raw_values: the field once, inside the payload. */
  function LeefRaw(digest: string -> string, run: string, n: nat): seq<Value> {
    [Str(LeefId(digest, n)), Str(run)] + ORIGIN + [Str(LeefLine(n)), Str(digest(LeefLine(n)))] + PARSED
  }

  /** No time in the line: all three timestamps come from the collector. */
  const TIMES: seq<Value> := [Timestamp, Timestamp, Timestamp, Str(""), Other("0"), Str("collector")]

  /** No user, addresses or ports either. */
  const ACTOR: seq<Value> :=
    [Str("Gate"), Str("Informational"), Str("login"), Str(""), Str(""), Null, Str(""), Null]

  const SOURCE: seq<Value> :=
    [Str("leef"), Str("kafka:raw-app-logs:0"), Str("raw-app-logs"), Other("17"), Str("leef"), Str("1.1.0"),
     Str("1.8.0")]

  const FINDING: seq<Value> :=
    [Str("Findings"), Other("2"), Str("Detection Finding"), Other("2004"), Str("Create"), Other("1"), Other("200401")]

  const OUTCOME: seq<Value> :=
    [Other("1"), Str("Detected"), Str("Unknown"), Str("New"), Other("1"), Str(""), Str("Acme")]

  const MIDDLE := TIMES + ACTOR + SOURCE + FINDING + OUTCOME

  /** The metadata as JSON, without the braces. */
  function Metadata(n: nat): string { "\"note\":\"" + Fill(n) + METADATA_TAIL }

  const METADATA_TAIL :=
    "\",\"leef_version\":\"1.0\",\"device_version\":\"2\",\"event_id\":\"login\",\"detection_confidence\":1.0"

  const OCSF_CLASS :=
    "{\"activity_id\":1,\"activity_name\":\"Create\",\"category_uid\":2,\"category_name\":\"Findings\","
    + "\"class_uid\":2004,\"class_name\":\"Detection Finding\",\"type_uid\":200401,"
    + "\"type_name\":\"Detection Finding: Create\",\"severity_id\":1,\"severity\":\"Informational\","

  const OCSF_STATUS :=
    "\"status_id\":1,\"status\":\"New\",\"time\":1700000000000,\"timezone_offset\":0,"
    + "\"message\":\"login\",\"metadata\":{\"uid\":\""

  const OCSF_PRODUCT :=
    "\",\"version\":\"1.8.0\",\"logged_time\":1700000000000,"
    + "\"product\":{\"name\":\"Gate\",\"vendor_name\":\"Acme\",\"version\":\"1.1.0\"}},\"unmapped\":{"

  const OCSF_FINDING := "},\"finding_info\":{\"title\":\"login\",\"uid\":\""

  const OCSF_ALERT := "\"},\"is_alert\":true}"

  /** to_ocsf_dict as JSON: the metadata once more, and the event id twice. */
  function Ocsf(id: string, n: nat): string {
    OCSF_CLASS + OCSF_STATUS + id + OCSF_PRODUCT + Metadata(n) + OCSF_FINDING + id + OCSF_ALERT
  }

  /** _event_values: the field twice, in the metadata and among the unmapped fields of the OCSF record. */
  function LeefNormalized(digest: string -> string, run: string, n: nat): seq<Value> {
    [Str(LeefId(digest, n)), Str(run)] + MIDDLE
    + [Str(digest(LeefLine(n))), Str("{" + Metadata(n) + "}"), Str(Ocsf(LeefId(digest, n), n))]
  }

  function LeefEvent(digest: string -> string, run: string, n: nat): Event {
    Event(LeefId(digest, n), true, LeefRaw(digest, run, n), LeefNormalized(digest, run, n), [])
  }

  // ---------------------------------------------------------------- their sizes

  lemma StrSize(s: string)
    ensures PreparedSize(Str(s)) == Weight(s) + 2
  {
  }

  lemma SizesOfStrings(a: string, b: string)
    ensures ValuesSize([Str(a), Str(b)]) == Weight(a) + Weight(b) + 6
  {
    assert [Str(a), Str(b)] == [Str(a)] + [Str(b)];
    SizesAdd([Str(a)], [Str(b)]);
    SizeOfOne(Str(a));
    SizeOfOne(Str(b));
  }

  lemma DigestWeight(digest: string -> string, s: string)
    requires Hexadecimal(digest)
    ensures Weight(digest(s)) == 64
  {
    BareWeight(digest(s));
  }

  lemma LineWeight(n: nat)
    ensures Weight(LeefLine(n)) == Weight(LINE_HEAD) + Weight("note=") + n
    ensures Weight(LINE_HEAD) + Weight("note=") <= 160
  {
    hide Weight, LeefLine, LINE_HEAD;
    LeefLineHead(n);
    WeightOfTwo(LINE_HEAD, Extension(n));
    WeightOfTwo("note=", Fill(n));
    BareWeight(Fill(n));
    WeightBound(LINE_HEAD);
    WeightBound("note=");
  }

  lemma MetadataWeight(n: nat)
    ensures Weight(Metadata(n)) == Weight("\"note\":\"") + n + Weight(METADATA_TAIL)
    ensures Weight(Metadata(n)) <= n + 1_000
  {
    hide Weight;
    WeightOfTwo("\"note\":\"" + Fill(n), METADATA_TAIL);
    WeightOfTwo("\"note\":\"", Fill(n));
    BareWeight(Fill(n));
    WeightBound("\"note\":\"");
    WeightBound(METADATA_TAIL);
  }

  lemma OcsfWeight(id: string, n: nat)
    ensures Weight(Ocsf(id, n)) == Weight(Ocsf("", 0)) - Weight(Metadata(0)) + 2 * Weight(id) + Weight(Metadata(n))
    ensures Weight(Ocsf("", 0)) <= 10_000
  {
    hide Weight, Metadata;
    OcsfParts(id, n);
    OcsfParts("", 0);
    MetadataWeight(0);
    WeightBound("");
    WeightBound(OCSF_CLASS);
    WeightBound(OCSF_STATUS);
    WeightBound(OCSF_PRODUCT);
    WeightBound(OCSF_FINDING);
    WeightBound(OCSF_ALERT);
  }

  lemma OcsfParts(id: string, n: nat)
    ensures Weight(Ocsf(id, n))
         == Weight(OCSF_CLASS) + Weight(OCSF_STATUS) + Weight(OCSF_PRODUCT) + Weight(OCSF_FINDING) + Weight(OCSF_ALERT)
            + 2 * Weight(id) + Weight(Metadata(n))
  {
    hide Weight, Metadata, OCSF_CLASS, OCSF_STATUS, OCSF_PRODUCT, OCSF_FINDING, OCSF_ALERT;
    var a := OCSF_CLASS + OCSF_STATUS;
    var b := a + id + OCSF_PRODUCT;
    var c := b + Metadata(n) + OCSF_FINDING;
    WeightOfTwo(OCSF_CLASS, OCSF_STATUS);
    WeightOfTwo(a, id);
    WeightOfTwo(a + id, OCSF_PRODUCT);
    WeightOfTwo(b, Metadata(n));
    WeightOfTwo(b + Metadata(n), OCSF_FINDING);
    WeightOfTwo(c, id);
    WeightOfTwo(c + id, OCSF_ALERT);
  }

  lemma RawSize(digest: string -> string, run: string, n: nat)
    requires Hexadecimal(digest) && RunText(run)
    ensures ValuesSize(LeefRaw(digest, run, n)) == ValuesSize(LeefRaw(digest, run, 0)) + n
    ensures ValuesSize(LeefRaw(digest, run, 0)) <= 4_000
  {
    hide ValuesSize, Weight, LeefLine, LeefId, ORIGIN, PARSED, LINE_HEAD;
    forall k: nat
      ensures ValuesSize(LeefRaw(digest, run, k))
           == 176 + ValuesSize(ORIGIN) + Weight(LINE_HEAD) + Weight("note=") + k + ValuesSize(PARSED)
    {
      RawParts(digest, run, k);
    }
    LineWeight(n);
    ColumnSizes();
  }

  lemma RawParts(digest: string -> string, run: string, n: nat)
    requires Hexadecimal(digest) && RunText(run)
    ensures ValuesSize(LeefRaw(digest, run, n))
         == 176 + ValuesSize(ORIGIN) + Weight(LINE_HEAD) + Weight("note=") + n + ValuesSize(PARSED)
  {
    hide ValuesSize, Weight, LeefLine, ORIGIN, PARSED, LINE_HEAD;
    var id, line := LeefId(digest, n), LeefLine(n);
    var front, payload := [Str(id), Str(run)], [Str(line), Str(digest(line))];
    SizesAdd(front + ORIGIN + payload, PARSED);
    SizesAdd(front + ORIGIN, payload);
    SizesAdd(front, ORIGIN);
    SizesOfStrings(id, run);
    SizesOfStrings(line, digest(line));
    IdWeights(digest, run, n);
    LineWeight(n);
  }

  lemma IdWeights(digest: string -> string, run: string, n: nat)
    requires Hexadecimal(digest) && RunText(run)
    ensures Weight(LeefId(digest, n)) == 64 == Weight(digest(LeefLine(n))) && Weight(run) == 36
  {
    hide Weight, LeefLine;
    DigestWeight(digest, LeefLine(n));
    DigestWeight(digest, Identity.Frame(Identity.SourceOf(LeefRecord(n)), 17, digest(LeefLine(n))));
    BareWeight(run);
  }

  lemma ColumnSizes()
    ensures ValuesSize(ORIGIN) <= 1_700 && ValuesSize(PARSED) <= 1_360 && |ORIGIN| == 5 && |PARSED| == 4
    ensures ValuesSize(MIDDLE) <= 11_900 && |MIDDLE| == 35
  {
    hide ValuesSize;
    SmallSize(ORIGIN);
    SmallSize(PARSED);
    SmallSize(TIMES);
    SmallSize(ACTOR);
    SmallSize(SOURCE);
    SmallSize(FINDING);
    SmallSize(OUTCOME);
    SizesAdd(TIMES, ACTOR);
    SizesAdd(TIMES + ACTOR, SOURCE);
    SizesAdd(TIMES + ACTOR + SOURCE, FINDING);
    SizesAdd(TIMES + ACTOR + SOURCE + FINDING, OUTCOME);
  }

  lemma NormalizedSize(digest: string -> string, run: string, n: nat)
    requires Hexadecimal(digest) && RunText(run)
    ensures ValuesSize(LeefNormalized(digest, run, n)) == ValuesSize(LeefNormalized(digest, run, 0)) + 2 * n
    ensures ValuesSize(LeefNormalized(digest, run, 0)) <= 30_000
  {
    hide ValuesSize, Weight, LeefLine, LeefId, Ocsf, MIDDLE, LeefNormalized, METADATA_TAIL;
    NormalizedParts(digest, run, n);
    NormalizedParts(digest, run, 0);
    MetadataWeight(n);
    MetadataWeight(0);
    ColumnSizes();
    OcsfWeight("", 0);
  }

  lemma NormalizedParts(digest: string -> string, run: string, n: nat)
    requires Hexadecimal(digest) && RunText(run)
    ensures ValuesSize(LeefNormalized(digest, run, n))
         == 307 + ValuesSize(MIDDLE) + Weight("{") + Weight("}") + 2 * Weight(Metadata(n))
            + Weight(Ocsf("", 0)) - Weight(Metadata(0))
    ensures Weight("{") + Weight("}") <= 10
  {
    hide ValuesSize, Weight, LeefLine, Ocsf, MIDDLE, Metadata;
    var id, line, metadata := LeefId(digest, n), LeefLine(n), "{" + Metadata(n) + "}";
    var front, last := [Str(id), Str(run)], Str(Ocsf(id, n));
    var back := [Str(digest(line)), Str(metadata)];
    assert back + [last] == [Str(digest(line)), Str(metadata), last];
    SizesAdd(front + MIDDLE, back + [last]);
    SizesAdd(front, MIDDLE);
    SizesAdd(back, [last]);
    SizesOfStrings(id, run);
    SizesOfStrings(digest(line), metadata);
    SizeOfOne(last);
    StrSize(Ocsf(id, n));
    IdWeights(digest, run, n);
    OcsfWeight(id, n);
    WeightOfTwo("{" + Metadata(n), "}");
    WeightOfTwo("{", Metadata(n));
    WeightBound("{");
    WeightBound("}");
  }

  // ---------------------------------------------------------------- the run stops halfway

  /** The line grows with n. */
  function Family(digest: string -> string, run: string): nat -> Event { (n: nat) => LeefEvent(digest, run, n) }

  lemma SmallSteps(digest: string -> string, run: string, n: nat)
    requires Hexadecimal(digest) && RunText(run)
    ensures SmallStep(Family(digest, run), n, SHIPPED) && RawFits(Family(digest, run), n, SHIPPED)
  {
    hide ValuesSize, LeefRaw, LeefNormalized, Aliases, Inserts, ValueGroup, Gap, MergeRow, MergeFixed;
    RawSize(digest, run, n);
    NormalizedSize(digest, run, n);
    NormalizedSize(digest, run, n + 1);
    RawGap();
    NormalizedGap();
    SizeGap(RAW, LeefRaw(digest, run, n));
    assert |NORMALIZED.name| == 32 && |RAW.name| == 26;
  }

  /** How long the field is. */
  function Length(digest: string -> string, run: string): nat { LastPassing(Family(digest, run), 425_000, SHIPPED) }

  /**
   * The line, parsed and normalized as shipped, passes every check up front, and the run then fails with its raw
   * row stored: nothing but the default settings and empty tables is assumed.
   */
  lemma CheckIsNotEnough(digest: string -> string, run: string)
    requires Hexadecimal(digest) && RunText(run)
    ensures
      var e := LeefEvent(digest, run, Length(digest, run));
      && |e.raw| == |RAW.columns| && |e.normalized| == |NORMALIZED.columns| && e.parseSuccess
    ensures
      var items := Items([LeefEvent(digest, run, Length(digest, run))], 0);
      && |items| == 1 && Checked(items, SHIPPED) && !Acceptable(items, SHIPPED)
      && SendAll(NOTHING, Plan(items, SHIPPED).0) == EventTables(items, [], [])
  {
    hide ValuesSize, LeefRaw, LeefNormalized, Aliases, Gap, SmallStep, RawFits, Items, Plan, SendAll, Acceptable,
      Checked;
    var e := Family(digest, run);
    forall n: nat ensures SmallStep(e, n, SHIPPED) && RawFits(e, n, SHIPPED) { SmallSteps(digest, run, n); }
    NormalizedGap();
    NormalizedSize(digest, run, 425_000);
    NormalizedSize(digest, run, 0);
    assert |NORMALIZED.name| == 32;
    GrowingEventStops(e, 425_000, 0, SHIPPED);
    ColumnCounts(digest, run, Length(digest, run));
  }

  lemma ColumnCounts(digest: string -> string, run: string, n: nat)
    ensures |LeefRaw(digest, run, n)| == |RAW.columns| && |LeefNormalized(digest, run, n)| == |NORMALIZED.columns|
  {
    hide LeefLine, Ocsf, Metadata;
  }

  lemma NothingIsSound()
    ensures Sound(NOTHING, 0)
  {
  }

  lemma Numerals()
    ensures Identity.Decimal(0) == "0" && Identity.Decimal(17) == "17"
  {
    assert Identity.Digits(17) == Identity.Digits(1) + ['7'];
  }

  /** The source columns and the offset are those of the record. */
  lemma Position(n: nat)
    ensures Identity.SourceOf(LeefRecord(n)) == "kafka:raw-app-logs:0" && Identity.Decimal(LeefRecord(n).offset) == "17"
  {
    hide LeefLine, Identity.Decimal;
    Numerals();
    assert "kafka:" + "raw-app-logs" + [':'] + "0" == "kafka:raw-app-logs:0";
  }

  lemma LineNotBlank(n: nat)
    ensures !Blank(LeefLine(n))
  {
    assert LeefLine(n)[0] == 'L';
  }

  lemma LeefNamed(digest: string -> string, run: string, n: nat)
    requires Hexadecimal(digest)
    ensures !AnyBlank([LeefEvent(digest, run, n)])
  {
    hide LeefRaw, LeefNormalized, LeefLine;
    var id := LeefId(digest, n);
    assert id[0] in id;
    assert !Blank(id);
  }

  /**
   * The same from the Kafka record through ingest_events, with no statement failing: an error, and a raw row
   * without its normalized row.
   */
  method StopHalfway(digest: string -> string, run: string, isLog4j: string -> bool)
      returns (event: Identity.Event, r: Result<IngestionResult, IngestError>, after: EventTables)
    requires Hexadecimal(digest) && RunText(run)
    ensures event.raw == LeefLine(Length(digest, run)) && event.id == LeefId(digest, Length(digest, run))
    ensures Checked(Items([LeefEvent(digest, run, Length(digest, run))], 0), SHIPPED)
    ensures r.Failure? && |after.raw| == 1 && after.raw[0].key == event.id && after.normalized == []
            && after.quarantine == []
  {
    hide Items, Plan, SendAll, Acceptable, Checked, Parsed, Completion, Report, AuditFits, Reached, Sound, Grows, Gap,
      AnyBlank, LeefRaw, LeefNormalized, Length, LeefLine;
    var n := Length(digest, run);
    var rejected;
    LineNotBlank(n);
    event, rejected := Identity.ParseRecord(digest, isLog4j, LeefRecord(n));
    assert rejected == "";
    var e := LeefEvent(digest, run, n);
    ShippedGaps();
    CheckIsNotEnough(digest, run);
    LeefNamed(digest, run, n);
    NothingIsSound();
    LoneItem(e, 0);
    var trino := new Trino(SHIPPED, NOTHING, 0, []);
    ghost var reach, sent;
    r, reach, sent := trino.IngestEvents([e]);
    ghost var plan := Plan(Items([e], 0), SHIPPED).0;
    assert plan[..sent] == plan;
    after := trino.store.tables;
  }
}
