/** The two size formulas for one row: the check made before any table is written, and the one made while merging. */
module Preflight {
  import opened Text

  /** A bound parameter as the size estimate distinguishes it. */
  datatype Value = Null | Str(s: string) | Timestamp | Other(rendered: string)

  datatype TableSpec = TableSpec(name: string, columns: seq<string>)

  function Utf8Width(c: char): nat {
    if c < '\U{80}' then 1 else if c < '\U{800}' then 2 else if c < '\U{10000}' then 3 else 4
  }

  function Utf8Size(s: string): nat {
    if s == [] then 0 else Utf8Size(s[..|s| - 1]) + Utf8Width(s[|s| - 1])
  }

  function Apostrophes(s: string): nat {
    if s == [] then 0 else Apostrophes(s[..|s| - 1]) + (if s[|s| - 1] == '\'' then 1 else 0)
  }

  /** _prepared_value_size */
  function PreparedSize(v: Value): nat {
    match v
    case Null => 4
    case Str(s) => Utf8Size(s) + Apostrophes(s) + 2
    case Timestamp => 48
    case Other(rendered) => Utf8Size(rendered) + 12
  }

  function ValuesSize(values: seq<Value>): nat {
    if values == [] then 0 else PreparedSize(values[0]) + 1 + ValuesSize(values[1..])
  }

  lemma {:induction false} SizesAdd(a: seq<Value>, b: seq<Value>)
    ensures ValuesSize(a + b) == ValuesSize(a) + ValuesSize(b)
  {
    if a == [] {
      assert a + b == b;
    } else {
      assert (a + b)[1..] == a[1..] + b;
      SizesAdd(a[1..], b);
    }
  }

  lemma SizeOfOne(v: Value)
    ensures ValuesSize([v]) == PreparedSize(v) + 1
  {
    assert [v][1..] == [];
  }

  function Repeat(s: string, n: nat): seq<string> {
    if n == 0 then [] else [s] + Repeat(s, n - 1)
  }

  function Prefixed(columns: seq<string>): seq<string> {
    if columns == [] then [] else ["source." + columns[0]] + Prefixed(columns[1..])
  }

  function ValueGroup(t: TableSpec): string { "(" + Join(Repeat("?", |t.columns|), ", ") + ")" }

  function Aliases(t: TableSpec): string { Join(t.columns, ", ") }

  function Inserts(t: TableSpec): string { Join(Prefixed(t.columns), ", ") }

  /** fixed_size and event_size of _merge_batches. */
  function MergeFixed(t: TableSpec): nat { |t.name| + |Aliases(t)| * 2 + |Inserts(t)| + 256 }

  function MergeRow(t: TableSpec, values: seq<Value>): nat { |ValueGroup(t)| + ValuesSize(values) }

  /** fixed_size and event_size of _assert_events_fit. */
  function CheckFixed(t: TableSpec): nat { |t.name| + |Aliases(t)| * 2 + 512 }

  function CheckRow(t: TableSpec, values: seq<Value>): nat { |t.columns| * 3 + 2 + ValuesSize(values) }

  predicate PassesCheck(t: TableSpec, values: seq<Value>, maxBytes: int) {
    CheckRow(t, values) + CheckFixed(t) <= maxBytes
  }

  predicate RaisesInMerge(t: TableSpec, values: seq<Value>, maxBytes: int) {
    MergeRow(t, values) + MergeFixed(t) > maxBytes
  }

  lemma {:induction false} JoinedLength(a: seq<string>, b: seq<string>, separator: string, k: nat)
    requires |a| == |b| && forall i :: 0 <= i < |a| ==> |b[i]| == |a[i]| + k
    ensures |Join(b, separator)| == |Join(a, separator)| + k * |a|
  {
    if |a| > 1 {
      JoinedLength(a[1..], b[1..], separator, k);
      assert k * |a| == k + k * (|a| - 1);
    }
  }

  lemma {:induction false} PrefixedLengths(columns: seq<string>)
    ensures |Prefixed(columns)| == |columns|
    ensures forall i :: 0 <= i < |columns| ==> |Prefixed(columns)[i]| == |columns[i]| + 7
  {
    if columns != [] { PrefixedLengths(columns[1..]); }
  }

  lemma {:induction false} MarksLength(n: nat)
    requires n > 0
    ensures |Join(Repeat("?", n), ", ")| == 3 * n - 2
  {
    if n > 1 {
      MarksLength(n - 1);
      assert Repeat("?", n)[1..] == Repeat("?", n - 1);
    }
  }

  /** The merge check asks for exactly this much more than the check made up front. */
  function Gap(t: TableSpec): int { |Aliases(t)| + 7 * |t.columns| - 258 }

  lemma SizeGap(t: TableSpec, values: seq<Value>)
    requires t.columns != []
    ensures MergeRow(t, values) + MergeFixed(t) == CheckRow(t, values) + CheckFixed(t) + Gap(t)
  {
    PrefixedLengths(t.columns);
    JoinedLength(t.columns, Prefixed(t.columns), ", ", 7);
    MarksLength(|t.columns|);
  }

  /**
   * A row that passed the check up front still raises in the middle of the merge exactly when the limit lies
   * inside the gap above the checked size.
   */
  lemma CheckedRowRaises(t: TableSpec, values: seq<Value>, maxBytes: int)
    requires t.columns != []
    ensures PassesCheck(t, values, maxBytes) && RaisesInMerge(t, values, maxBytes)
       <==> 0 <= maxBytes - (CheckRow(t, values) + CheckFixed(t)) < Gap(t)
  {
    SizeGap(t, values);
  }

  // ---------------------------------------------------------------- the shipped tables

  const RAW_SOURCE_COLUMNS :=
    ["event_id", "ingestion_run_id", "source_id", "source_name",
     "source_type", "source_offset", "observed_at"]

  const RAW_PAYLOAD_COLUMNS :=
    ["raw_payload", "raw_payload_hash", "parser_name",
     "parser_version", "detection_confidence", "parse_success"]

  const RAW_COLUMNS := RAW_SOURCE_COLUMNS + RAW_PAYLOAD_COLUMNS

  const RAW := TableSpec("iceberg.logging.raw_events", RAW_COLUMNS)

  const NORMALIZED_TIME_COLUMNS :=
    ["event_id", "ingestion_run_id", "event_timestamp", "observed_at",
     "ingested_at", "original_timestamp", "timezone_offset", "time_source"]

  const NORMALIZED_ACTOR_COLUMNS :=
    ["service_name", "log_level", "message", "user_id",
     "ip_address", "src_port", "dst_ip_address", "dst_port"]

  const NORMALIZED_SOURCE_COLUMNS :=
    ["source_format", "source_id", "source_name", "source_offset",
     "parser_name", "parser_version", "ocsf_version"]

  const NORMALIZED_CLASS_COLUMNS :=
    ["category", "category_uid", "class_name", "class_uid", "activity_name", "activity_id", "type_uid"]

  const NORMALIZED_OUTCOME_COLUMNS :=
    ["severity_id", "action", "disposition", "status", "status_id", "hostname", "device_vendor"]

  const NORMALIZED_DOCUMENT_COLUMNS :=
    ["raw_payload_hash", "metadata_json", "ocsf_json"]

  const NORMALIZED_COLUMNS :=
    NORMALIZED_TIME_COLUMNS + NORMALIZED_ACTOR_COLUMNS + NORMALIZED_SOURCE_COLUMNS
    + NORMALIZED_CLASS_COLUMNS + NORMALIZED_OUTCOME_COLUMNS + NORMALIZED_DOCUMENT_COLUMNS

  const NORMALIZED := TableSpec("iceberg.logging.application_logs", NORMALIZED_COLUMNS)

  const QUARANTINE_SOURCE_COLUMNS :=
    ["event_id", "ingestion_run_id", "source_id", "source_name",
     "source_type", "source_offset", "observed_at", "original_timestamp"]

  const QUARANTINE_ERROR_COLUMNS :=
    ["parser_name", "parser_version", "error_code", "error_message",
     "raw_payload", "raw_payload_hash", "metadata_json"]

  const QUARANTINE_COLUMNS := QUARANTINE_SOURCE_COLUMNS + QUARANTINE_ERROR_COLUMNS

  const QUARANTINE := TableSpec("iceberg.logging.quarantine_events", QUARANTINE_COLUMNS)

  const DETECTION_RULE_COLUMNS :=
    ["event_id", "detected_at", "rule_id", "rule_version", "title", "severity_id", "status"]

  const DETECTION_CLASS_COLUMNS :=
    ["class_uid", "category_uid", "activity_id", "type_uid", "first_seen", "last_seen"]

  const DETECTION_SUBJECT_COLUMNS :=
    ["hostname", "service_name", "ip_address", "user_id", "event_count", "evidence_event_ids_json", "ocsf_json"]

  const DETECTION_COLUMNS := DETECTION_RULE_COLUMNS + DETECTION_CLASS_COLUMNS + DETECTION_SUBJECT_COLUMNS

  const DETECTIONS := TableSpec("iceberg.logging.detections", DETECTION_COLUMNS)

  function LengthSum(columns: seq<string>): nat {
    if columns == [] then 0 else |columns[0]| + LengthSum(columns[1..])
  }

  lemma {:induction false} AliasesLength(columns: seq<string>)
    requires columns != []
    ensures |Join(columns, ", ")| == LengthSum(columns) + 2 * (|columns| - 1)
  {
    if |columns| > 1 { AliasesLength(columns[1..]); }
  }

  lemma {:induction false} LengthsOfTwo(a: seq<string>, b: seq<string>)
    ensures LengthSum(a + b) == LengthSum(a) + LengthSum(b)
  {
    if a == [] {
      assert a + b == b;
    } else {
      assert (a + b)[1..] == a[1..] + b;
      LengthsOfTwo(a[1..], b);
    }
  }

  function LengthAt(columns: seq<string>, i: nat): nat {
    if i < |columns| then |columns[i]| else 0
  }

  function LengthsFrom(columns: seq<string>, i: nat): nat {
    if i < |columns| then LengthSum(columns[i..]) else 0
  }

  lemma NextLength(columns: seq<string>, i: nat)
    ensures LengthsFrom(columns, i) == LengthAt(columns, i) + LengthsFrom(columns, i + 1)
  {
    if i < |columns| {
      var rest := columns[i..];
      assert rest[0] == columns[i] && rest[1..] == columns[i + 1..];
    }
  }

  lemma AllLengths(c: seq<string>)
    ensures LengthsFrom(c, 0) == LengthSum(c)
    ensures |c| <= 8 ==> LengthsFrom(c, 8) == 0
  {
    assert c[0..] == c;
  }

  lemma UpToEight(c: seq<string>)
    requires |c| <= 8
    ensures LengthSum(c) == LengthAt(c, 0) + LengthAt(c, 1) + LengthAt(c, 2) + LengthAt(c, 3)
                            + LengthAt(c, 4) + LengthAt(c, 5) + LengthAt(c, 6) + LengthAt(c, 7)
  {
    hide LengthAt, LengthSum, LengthsFrom;
    AllLengths(c);
    NextLength(c, 0); NextLength(c, 1); NextLength(c, 2); NextLength(c, 3);
    NextLength(c, 4); NextLength(c, 5); NextLength(c, 6); NextLength(c, 7);
  }

  lemma RawGap()
    ensures |Aliases(RAW)| == 188 && Gap(RAW) == 21
  {
    hide Join, LengthSum;
    UpToEight(RAW_SOURCE_COLUMNS);
    UpToEight(RAW_PAYLOAD_COLUMNS);
    LengthsOfTwo(RAW_SOURCE_COLUMNS, RAW_PAYLOAD_COLUMNS);
    AliasesLength(RAW.columns);
  }

  lemma NormalizedGap()
    ensures |Aliases(NORMALIZED)| == 514 && Gap(NORMALIZED) == 536
  {
    hide Join, LengthSum;
    assert LengthSum(NORMALIZED_TIME_COLUMNS) == 105 by { UpToEight(NORMALIZED_TIME_COLUMNS); }
    assert LengthSum(NORMALIZED_ACTOR_COLUMNS) == 75 by { UpToEight(NORMALIZED_ACTOR_COLUMNS); }
    assert LengthSum(NORMALIZED_SOURCE_COLUMNS) == 83 by { UpToEight(NORMALIZED_SOURCE_COLUMNS); }
    assert LengthSum(NORMALIZED_CLASS_COLUMNS) == 71 by { UpToEight(NORMALIZED_CLASS_COLUMNS); }
    assert LengthSum(NORMALIZED_OUTCOME_COLUMNS) == 64 by { UpToEight(NORMALIZED_OUTCOME_COLUMNS); }
    assert LengthSum(NORMALIZED_DOCUMENT_COLUMNS) == 38 by { UpToEight(NORMALIZED_DOCUMENT_COLUMNS); }
    var columns := NORMALIZED_TIME_COLUMNS;
    LengthsOfTwo(columns, NORMALIZED_ACTOR_COLUMNS);
    columns := columns + NORMALIZED_ACTOR_COLUMNS;
    LengthsOfTwo(columns, NORMALIZED_SOURCE_COLUMNS);
    columns := columns + NORMALIZED_SOURCE_COLUMNS;
    LengthsOfTwo(columns, NORMALIZED_CLASS_COLUMNS);
    columns := columns + NORMALIZED_CLASS_COLUMNS;
    LengthsOfTwo(columns, NORMALIZED_OUTCOME_COLUMNS);
    columns := columns + NORMALIZED_OUTCOME_COLUMNS;
    LengthsOfTwo(columns, NORMALIZED_DOCUMENT_COLUMNS);
    columns := columns + NORMALIZED_DOCUMENT_COLUMNS;
    AliasesLength(NORMALIZED.columns);
  }

  lemma QuarantineGap()
    ensures |Aliases(QUARANTINE)| == 213 && Gap(QUARANTINE) == 60
  {
    hide Join, LengthSum;
    UpToEight(QUARANTINE_SOURCE_COLUMNS);
    UpToEight(QUARANTINE_ERROR_COLUMNS);
    LengthsOfTwo(QUARANTINE_SOURCE_COLUMNS, QUARANTINE_ERROR_COLUMNS);
    AliasesLength(QUARANTINE.columns);
  }

  lemma DetectionGap()
    ensures |Aliases(DETECTIONS)| == 237 && Gap(DETECTIONS) == 119
  {
    hide Join, LengthSum;
    UpToEight(DETECTION_RULE_COLUMNS);
    UpToEight(DETECTION_CLASS_COLUMNS);
    UpToEight(DETECTION_SUBJECT_COLUMNS);
    LengthsOfTwo(DETECTION_RULE_COLUMNS, DETECTION_CLASS_COLUMNS);
    LengthsOfTwo(DETECTION_RULE_COLUMNS + DETECTION_CLASS_COLUMNS, DETECTION_SUBJECT_COLUMNS);
    AliasesLength(DETECTIONS.columns);
  }
}
