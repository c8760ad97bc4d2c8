/** Event identities: the framed source, offset and payload hash, over one run and over Kafka records. */
module Identity {
  import opened Prelude
  import opened Text
  import opened LogicalEvents

  // ---------------------------------------------------------------- decimal numbers

  function Digits(n: nat): (r: string)
    ensures r != [] && r[|r| - 1] == '0' + (n % 10) as char && (|r| == 1 <==> n < 10)
    ensures forall i :: 0 <= i < |r| ==> '0' <= r[i] <= '9'
  {
    var last := '0' + (n % 10) as char;
    if n < 10 then [last] else Digits(n / 10) + [last]
  }

  /** str of an integer. */
  function Decimal(n: int): (r: string)
    ensures r != [] && (r[0] == '-' <==> n < 0)
    ensures forall i :: 0 <= i < |r| ==> r[i] == '-' || '0' <= r[i] <= '9'
  {
    if n < 0 then "-" + Digits(-n) else Digits(n)
  }

  function Digit(c: char): int { c as int - '0' as int }

  /** The number that a decimal text reads as. */
  function Read(digits: string): int {
    if digits == [] then 0 else Read(digits[..|digits| - 1]) * 10 + Digit(digits[|digits| - 1])
  }

  lemma {:induction false} DigitsRead(n: nat)
    ensures Read(Digits(n)) == n && (n > 0 ==> Digits(n)[0] != '0')
  {
    var last := '0' + (n % 10) as char;
    assert Digit(last) == n % 10;
    if n < 10 {
      assert Digits(n) == [last] && [last][..0] == [];
    } else {
      DigitsRead(n / 10);
      assert Digits(n)[..|Digits(n)| - 1] == Digits(n / 10);
    }
  }

  /** The text of an integer reads as that integer, has no leading zero, and a minus sign only in front. */
  lemma DecimalReads(n: int)
    ensures n >= 0 ==> Read(Decimal(n)) == n && (forall c :: c in Decimal(n) ==> '0' <= c <= '9')
    ensures n > 0 ==> Decimal(n)[0] != '0'
    ensures n == 0 ==> |Decimal(n)| == 1
    ensures n < 0 ==> Decimal(n) == "-" + Decimal(-n)
  {
    if n >= 0 { DigitsRead(n); }
  }

  lemma DigitsInjective(m: nat, n: nat)
    requires Digits(m) == Digits(n)
    ensures m == n
  {
    DigitsRead(m);
    DigitsRead(n);
  }

  lemma DecimalInjective(m: int, n: int)
    requires Decimal(m) == Decimal(n)
    ensures m == n
  {
    if m < 0 {
      assert Decimal(m)[1..] == Digits(-m) && Decimal(n)[1..] == Digits(-n);
      DigitsInjective(-m, -n);
    } else {
      DigitsInjective(m, n);
    }
  }

  // ---------------------------------------------------------------- the frame

  /** What comes after the last separator can be told apart, whatever stands before it. */
  lemma LastFieldsAgree(a: string, x: string, b: string, y: string, separator: char)
    requires separator !in x && separator !in y
    requires a + [separator] + x == b + [separator] + y
    ensures a == b && x == y
  {
    var s, t := a + [separator] + x, b + [separator] + y;
    assert s[|a|] == separator && forall i :: |a| < i < |s| ==> s[i] == x[i - |a| - 1] != separator;
    assert t[|b|] == separator && forall i :: |b| < i < |t| ==> t[i] == y[i - |b| - 1] != separator;
    assert |a| == |b|;
    assert a == s[..|a|] && b == t[..|b|];
    assert x == s[|a| + 1..] && y == t[|b| + 1..];
  }

  const NUL: char := '\0'

  /** The hashed text: source_id NUL source_offset NUL payload hash. */
  function Frame(source: string, offset: int, hash: string): string {
    source + [NUL] + Decimal(offset) + [NUL] + hash
  }

  /** No two identities share a frame, even when a source name itself holds NULs or digits. */
  lemma FrameInjective(source: string, offset: int, hash: string, source': string, offset': int, hash': string)
    requires NUL !in hash && NUL !in hash'
    ensures Frame(source, offset, hash) == Frame(source', offset', hash')
       <==> source == source' && offset == offset' && hash == hash'
  {
    if Frame(source, offset, hash) == Frame(source', offset', hash') {
      LastFieldsAgree(source + [NUL] + Decimal(offset), hash, source' + [NUL] + Decimal(offset'), hash', NUL);
      LastFieldsAgree(source, Decimal(offset), source', Decimal(offset'), NUL);
      DecimalInjective(offset, offset');
    }
  }

  /** The digest as it is used: hexadecimal text, taken to have no collisions. */
  ghost predicate IsDigest(digest: string -> string) {
    && (forall s :: NUL !in digest(s))
    && (forall s, t :: digest(s) == digest(t) ==> s == t)
  }

  function EventId(digest: string -> string, source: string, offset: int, raw: string): string {
    digest(Frame(source, offset, digest(raw)))
  }

  lemma IdText(digest: string -> string)
    ensures forall source, offset, raw ::
              EventId(digest, source, offset, raw) == digest(source + "\0" + Decimal(offset) + "\0" + digest(raw))
  {
    hide Decimal;
    assert [NUL] == "\0";
  }

  /** Two events have the same ID exactly when source, offset and payload all agree. */
  lemma IdsAgree(digest: string -> string, source: string, offset: int, raw: string,
                 source': string, offset': int, raw': string)
    requires IsDigest(digest)
    ensures EventId(digest, source, offset, raw) == EventId(digest, source', offset', raw')
       <==> source == source' && offset == offset' && raw == raw'
  {
    FrameInjective(source, offset, digest(raw), source', offset', digest(raw'));
  }

  // ---------------------------------------------------------------- one run

  datatype Event = Event(id: string, source: string, offset: int, raw: string)

  function Identified(digest: string -> string, source: string, start: int, texts: seq<(nat, string)>): (r: seq<Event>)
    ensures |r| == |texts|
    ensures forall k :: 0 <= k < |r| ==>
      && r[k].source == source && r[k].raw == texts[k].1 && r[k].offset == start + texts[k].0
      && r[k].id == EventId(digest, source, start + texts[k].0, texts[k].1)
  {
    seq(|texts|, k requires 0 <= k < |texts| =>
      Event(EventId(digest, source, start + texts[k].0, texts[k].1), source, start + texts[k].0, texts[k].1))
  }

  /** The events of a run over whole lines, without a limit. */
  function Produced(digest: string -> string, isLog4j: string -> bool, source: string, start: int, lines: seq<string>)
    : seq<Event>
  {
    Identified(digest, source, start, Texts(All(lines, isLog4j)))
  }

  /** One event per segment: its source, its offset from the start, its lines, and the hash of all three. */
  ghost predicate Stamped(digest: string -> string, source: string, start: int, all: seq<Segment>, events: seq<Event>) {
    && |events| == |all|
    && forall k :: 0 <= k < |all| ==>
         && events[k].source == source && events[k].offset == start + all[k].offset
         && events[k].raw == Join(all[k].chunks, "\n")
         && events[k].id == digest(source + "\0" + Decimal(events[k].offset) + "\0" + digest(events[k].raw))
  }

  lemma ProducedStamped(digest: string -> string, isLog4j: string -> bool, source: string, start: int,
                        lines: seq<string>)
    ensures Stamped(digest, source, start, All(lines, isLog4j), Produced(digest, isLog4j, source, start, lines))
  {
    hide All, EventId, Decimal, Join;
    IdText(digest);
  }

  method RunLines(digest: string -> string, isLog4j: string -> bool, source: string, start: int,
                  lines: seq<string>, maximum: Option<int>)
    returns (r: Result<seq<Event>, LimitError>)
    ensures
      var count := |All(lines, isLog4j)|;
      && (r.Failure? <==> maximum.Some? && (maximum.value <= 0 || count > maximum.value))
      && (r.Failure? ==> r.error == if maximum.value <= 0 then NotPositive else TooMany)
      && (r.Success? ==> r.value == Produced(digest, isLog4j, source, start, lines))
    ensures r.Success? ==> Stamped(digest, source, start, All(lines, isLog4j), r.value)
  {
    hide All, Texts, EventId, Identified, Stamped;
    ProducedStamped(digest, isLog4j, source, start, lines);
    var early := LimitCheck(0, maximum);
    if early.Failure? { return Failure(early.error); }
    var grouped := Group(lines, isLog4j, maximum);
    if grouped.Failure? { return Failure(grouped.error); }
    var texts := grouped.value;
    var events: seq<Event> := [];
    for k := 0 to |texts|
      invariant events == Identified(digest, source, start, texts)[..k]
    {
      var (offset, line) := texts[k];
      events := events + [Event(EventId(digest, source, start + offset, line), source, start + offset, line)];
    }
    assert events == Identified(digest, source, start, texts);
    return Success(events);
  }

  lemma {:induction false} OffsetsAscend(lines: seq<string>, isLog4j: string -> bool, n: nat, j: nat, k: nat)
    requires n <= |lines| && j < k < |Segments(lines, isLog4j, n)|
    ensures Segments(lines, isLog4j, n)[j].offset < Segments(lines, isLog4j, n)[k].offset
    decreases k
  {
    hide Segments, Kept;
    SegmentsCover(lines, isLog4j, n, k - 1);
    if j < k - 1 { OffsetsAscend(lines, isLog4j, n, j, k - 1); }
  }

  /** Within one run no two events share an ID, even when their text is the same. */
  lemma RunIdsDistinct(digest: string -> string, isLog4j: string -> bool, source: string, start: int,
                       lines: seq<string>, j: nat, k: nat)
    requires IsDigest(digest)
    requires j < k < |Produced(digest, isLog4j, source, start, lines)|
    ensures
      var events := Produced(digest, isLog4j, source, start, lines);
      events[j].id != events[k].id && events[j].offset < events[k].offset
  {
    hide Segments, EventId, IsDigest;
    OffsetsAscend(lines, isLog4j, |lines|, j, k);
    var texts := Texts(All(lines, isLog4j));
    IdsAgree(digest, source, start + texts[j].0, texts[j].1, source, start + texts[k].0, texts[k].1);
  }

  lemma IdentifiedMoved(digest: string -> string, source: string, start: int,
                        x: seq<Segment>, y: seq<Segment>, distance: nat)
    ensures Identified(digest, source, start, Texts(x + Moved(y, distance)))
         == Identified(digest, source, start, Texts(x)) + Identified(digest, source, start + distance, Texts(y))
  {
    hide EventId, Texts, Moved, Identified;
    var whole, moved := Texts(x + Moved(y, distance)), Moved(y, distance);
    forall k | 0 <= k < |whole|
      ensures k < |x| ==> whole[k] == Texts(x)[k]
      ensures k >= |x| ==> whole[k] == (Texts(y)[k - |x|].0 + distance, Texts(y)[k - |x|].1)
    {
      assert k >= |x| ==> (x + moved)[k] == moved[k - |x|];
    }
  }

  /**
   * Replays reproduce IDs: reading on from the start of any event that opens on its own line, with the offset it
   * had, gives the same events the longer run gave for those lines.
   */
  lemma ResumedRunAgrees(digest: string -> string, isLog4j: string -> bool, source: string, start: int,
                         a: seq<string>, b: seq<string>)
    requires b != [] && Starts(b[0])
    ensures Produced(digest, isLog4j, source, start, a + b)
         == Produced(digest, isLog4j, source, start, a) + Produced(digest, isLog4j, source, start + |a|, b)
  {
    hide All, Starts, Identified, Texts, Moved;
    GroupingComposes(a, b, isLog4j);
    IdentifiedMoved(digest, source, start, All(a, isLog4j), All(b, isLog4j), |a|);
  }

  // ---------------------------------------------------------------- Kafka records

  /** A record's value: a tombstone, or the decoded text and whether the bytes were valid UTF-8. */
  datatype Payload = Tombstone | Decoded(text: string, valid: bool)

  datatype Record = Record(topic: string, partition: int, offset: int, payload: Payload)

  function SourceOf(record: Record): string {
    "kafka:" + record.topic + [':'] + Decimal(record.partition)
  }

  function TextOf(record: Record): string {
    if record.payload.Tombstone? then "" else record.payload.text
  }

  /**
   * Every record gives exactly one event, whose identity is a function of the record, on the rejected branches
   * and on the parsed one alike; rejected says why the parsers were not asked.
   */
  method ParseRecord(digest: string -> string, isLog4j: string -> bool, record: Record)
    returns (event: Event, rejected: string)
    ensures event == Event(EventId(digest, SourceOf(record), record.offset, TextOf(record)),
                           SourceOf(record), record.offset, TextOf(record))
    ensures
      var source := "kafka:" + record.topic + ":" + Decimal(record.partition);
      var text := match record.payload case Tombstone => "" case Decoded(text, _) => text;
      && event.source == source && event.offset == record.offset && event.raw == text
      && event.id == digest(source + "\0" + Decimal(record.offset) + "\0" + digest(text))
    ensures rejected ==
      match record.payload
      case Tombstone => "Kafka tombstone is not a log event"
      case Decoded(text, valid) =>
        if forall c :: c in text ==> c in WHITESPACE then "Empty Kafka log event"
        else if !valid then "Kafka event is not valid UTF-8"
        else ""
    ensures rejected == ""
       <==> record.payload.Decoded? && record.payload.valid && !Blank(record.payload.text)
  {
    hide Blank, EventId, Decimal, WHITESPACE;
    IdText(digest);
    assert [':'] == ":";
    if record.payload.Decoded? { TracesExact(record.payload.text); }
    var text := "";
    rejected := "";
    match record.payload {
      case Tombstone =>
        rejected := "Kafka tombstone is not a log event";
      case Decoded(decoded, valid) =>
        text := decoded;
        if !valid { rejected := "Kafka event is not valid UTF-8"; }
        if Blank(text) { rejected := "Empty Kafka log event"; }
    }
    if rejected != "" {
      return Event(EventId(digest, SourceOf(record), record.offset, text), SourceOf(record), record.offset, text),
        rejected;
    }
    SingleLine(text, isLog4j);
    var events := RunLines(digest, isLog4j, SourceOf(record), record.offset, [text], None);
    assert Produced(digest, isLog4j, SourceOf(record), record.offset, [text])
        == Identified(digest, SourceOf(record), record.offset, [(0, text)]);
    event := events.value[0];
  }

  /** Records at different positions never share an event ID, and a redelivered record gets the one it had. */
  lemma RecordIdsAgree(digest: string -> string, r: Record, s: Record)
    requires IsDigest(digest)
    ensures EventId(digest, SourceOf(r), r.offset, TextOf(r)) == EventId(digest, SourceOf(s), s.offset, TextOf(s))
       <==> r.topic == s.topic && r.partition == s.partition && r.offset == s.offset && TextOf(r) == TextOf(s)
  {
    IdsAgree(digest, SourceOf(r), r.offset, TextOf(r), SourceOf(s), s.offset, TextOf(s));
    if SourceOf(r) == SourceOf(s) {
      LastFieldsAgree("kafka:" + r.topic, Decimal(r.partition), "kafka:" + s.topic, Decimal(s.partition), ':');
      DecimalInjective(r.partition, s.partition);
      assert ("kafka:" + r.topic)[6..] == r.topic && ("kafka:" + s.topic)[6..] == s.topic;
    }
  }
}
