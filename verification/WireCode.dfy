/** The document decoder and the sample encoder, as they run. */
module WireCode {
  import opened Wrappers
  import opened Bytes
  import opened Text
  import opened JsonSpec
  import opened JsonDraft
  import opened JsonCode
  import opened Wire

  // ---- encoding ---------------------------------------------------------------------------

  method ValidateEncodable(s: WireSample) returns (r: Status)
    ensures r == if Encodable(s) then Status.Ok else Failure(InvalidArgument)
  {
    if !s.path.Valid() {
      return Failure(InvalidArgument);
    }
    if s.source == [] {
      return Failure(InvalidArgument);
    }
    if s.incarnation == [] {
      return Failure(InvalidArgument);
    }
    if s.generation == 0 {
      return Failure(InvalidArgument);
    }
    if s.sequence == 0 {
      return Failure(InvalidArgument);
    }
    if s.domain == [] {
      return Failure(InvalidArgument);
    }
    if s.reported == {} {
      return Failure(InvalidArgument);
    }
    return Status.Ok;
  }

  /** The draft of a record whose first members are written. */
  ghost function RecordDraft(s: WireSample, n: nat): Draft
    requires s.Shaped() && n <= 33
  {
    Draft(On(Bottom, OpenObj(EntriesOf(s, n), None)), None, Status.Ok)
  }

  lemma MemberWritten(s: WireSample, k: Key)
    requires s.Shaped()
    ensures EntryOf(s, k).None? ==> RecordDraft(s, k + 1) == RecordDraft(s, k)
    ensures EntryOf(s, k).Some? ==>
              Write(Name(RecordDraft(s, k), KeyName(k)), EntryOf(s, k).value) == RecordDraft(s, k + 1)
  {
    hide EntryOf, KeyName;
    if EntryOf(s, k).None? {
      assert EntriesOf(s, k + 1) == EntriesOf(s, k);
    }
  }

  /** A string member is written next. */
  method PutString(writer: JsonWriter, ghost s: WireSample, k: Key, value: bytes) returns (r: Status)
    requires writer.Valid() && s.Shaped() && writer.draft == RecordDraft(s, k) && EntryOf(s, k) == Some(Str(value))
    modifies writer
    ensures writer.Valid() && writer.draft == RecordDraft(s, k + 1) && r.Ok?
  {
    hide EntryOf, KeyName, EntriesOf;
    MemberWritten(s, k);
    r := writer.MemberString(KeyName(k), value);
  }

  method PutU64(writer: JsonWriter, ghost s: WireSample, k: Key, value: u64) returns (r: Status)
    requires writer.Valid() && s.Shaped() && writer.draft == RecordDraft(s, k) && EntryOf(s, k) == Some(Uint(value))
    modifies writer
    ensures writer.Valid() && writer.draft == RecordDraft(s, k + 1) && r.Ok?
  {
    hide EntryOf, KeyName, EntriesOf;
    MemberWritten(s, k);
    r := writer.MemberU64(KeyName(k), value);
  }

  /** The members every record has. */
  method EncodeHead(writer: JsonWriter, s: WireSample) returns (r: Status)
    requires writer.Valid() && s.Shaped() && writer.draft == RecordDraft(s, 0)
    modifies writer
    ensures writer.Valid() && writer.draft == RecordDraft(s, REVISION) && r.Ok?
  {
    hide RecordDraft, KeyName, Write, Name;
    r := EncodePath(writer, s);
    r := PutString(writer, s, SOURCE, s.source);
    r := PutString(writer, s, INCARNATION, s.incarnation);
    r := PutU64(writer, s, GENERATION, s.generation);
    r := PutU64(writer, s, SEQUENCE, s.sequence);
    r := PutString(writer, s, AUTHORITY, AuthorityName(s.authority));
    r := PutObserved(writer, s);
    r := PutString(writer, s, DOMAIN, s.domain);
  }

  method EncodePath(writer: JsonWriter, s: WireSample) returns (r: Status)
    requires writer.Valid() && s.Shaped() && writer.draft == RecordDraft(s, 0)
    modifies writer
    ensures writer.Valid() && writer.draft == RecordDraft(s, SOURCE) && r.Ok?
  {
    hide RecordDraft, KeyName, Write, Name;
    r := PutString(writer, s, KIND, SAMPLE_KIND);
    r := PutU64(writer, s, VERSION, WIRE_VERSION);
    r := PutString(writer, s, DEVICE, s.path.device);
    r := PutString(writer, s, PORT, s.path.port);
    r := PutU64(writer, s, QUEUE, s.path.queue);
  }

  method PutObserved(writer: JsonWriter, s: WireSample) returns (r: Status)
    requires writer.Valid() && s.Shaped() && writer.draft == RecordDraft(s, OBSERVED)
    modifies writer
    ensures writer.Valid() && writer.draft == RecordDraft(s, DOMAIN) && r.Ok?
  {
    hide KeyName, EntriesOf;
    MemberWritten(s, OBSERVED);
    r := writer.MemberI64(KeyName(OBSERVED), s.observedNs);
  }

  /** The members a record has only when there is something to say. */
  method EncodeOptional(writer: JsonWriter, s: WireSample) returns (r: Status)
    requires writer.Valid() && s.Shaped() && writer.draft == RecordDraft(s, REVISION)
    modifies writer
    ensures writer.Valid() && writer.draft == RecordDraft(s, DECLARED) && r.Ok?
  {
    hide RecordDraft, KeyName, Write, Name;
    r := Status.Ok;
    MemberWritten(s, REVISION);
    if s.revision != 0 {
      r := PutU64(writer, s, REVISION, s.revision);
    }
    MemberWritten(s, TRAFFIC);
    if s.trafficClass.Some? {
      r := PutU64(writer, s, TRAFFIC, s.trafficClass.value);
    }
    MemberWritten(s, SCHEDULING);
    if s.schedulingClass.Some? {
      r := PutString(writer, s, SCHEDULING, s.schedulingClass.value);
    }
    r := EncodeFields(writer, s);
  }

  /** The measurements that are reported, in order. */
  method EncodeFields(writer: JsonWriter, s: WireSample) returns (r: Status)
    requires writer.Valid() && s.Shaped() && writer.draft == RecordDraft(s, FIRST_FIELD)
    modifies writer
    ensures writer.Valid() && writer.draft == RecordDraft(s, DECLARED) && r.Ok?
  {
    hide RecordDraft, KeyName, Write, Name;
    r := Status.Ok;
    for f := 0 to FIELD_COUNT
      invariant writer.Valid() && writer.draft == RecordDraft(s, FIRST_FIELD + f) && r.Ok?
    {
      MemberWritten(s, FieldKey(f));
      if f !in s.reported {
        continue;
      }
      r := PutU64(writer, s, FieldKey(f), s.values[f]);
    }
  }

  ghost function NamesDraft(s: WireSample, n: nat): Draft
    requires s.Shaped() && n <= FIELD_COUNT
  {
    Draft(On(On(Bottom, OpenObj(EntriesOf(s, DECLARED), Some(KeyName(DECLARED)))), OpenArr(DeclaredNames(s.declared, n), false)),
          None, Status.Ok)
  }

  /** The name of a measurement, if it was declared. */
  method PutName(writer: JsonWriter, s: WireSample, f: nat) returns (r: Status)
    requires writer.Valid() && s.Shaped() && f < FIELD_COUNT && writer.draft == NamesDraft(s, f)
    modifies writer
    ensures writer.Valid() && writer.draft == NamesDraft(s, f + 1) && r.Ok?
  {
    hide KeyName, EntriesOf;
    if f !in s.declared {
      assert DeclaredNames(s.declared, f + 1) == DeclaredNames(s.declared, f);
      return Status.Ok;
    }
    r := writer.ValueString(KeyName(FieldKey(f)));
  }

  lemma NamesBegin(s: WireSample)
    requires s.Shaped()
    ensures RecordDraft(s, DECLARED).Sound() && Name(RecordDraft(s, DECLARED), KeyName(DECLARED)).Sound()
    ensures Begin(Name(RecordDraft(s, DECLARED), KeyName(DECLARED)), ArrayFrame) == NamesDraft(s, 0)
  {
    hide KeyName, EntriesOf;
  }

  lemma NamesEnd(s: WireSample)
    requires s.Shaped()
    ensures NamesDraft(s, FIELD_COUNT).Sound() && End(NamesDraft(s, FIELD_COUNT), ArrayFrame) == RecordDraft(s, 33)
    ensures RecordDraft(s, 33).status.Ok?
  {
    hide KeyName, DeclaredNames;
    MemberWritten(s, DECLARED);
  }

  /** What the sender declared it reports, as an array of names. */
  method EncodeDeclared(writer: JsonWriter, s: WireSample) returns (r: Status)
    requires writer.Valid() && s.Shaped() && writer.draft == RecordDraft(s, DECLARED)
    modifies writer
    ensures writer.Valid() && writer.draft == RecordDraft(s, 33) && r.Ok?
  {
    hide KeyName, EntriesOf, NamesDraft, RecordDraft, Begin, End, Name;
    NamesBegin(s);
    r := writer.Key(KeyName(DECLARED));
    r := writer.BeginArray();
    for f := 0 to FIELD_COUNT
      invariant writer.Valid() && writer.draft == NamesDraft(s, f)
    {
      r := PutName(writer, s, f);
    }
    NamesEnd(s);
    r := writer.EndArray();
  }

  /** The canonical record of a sample, or a refusal and nothing written. */
  method EncodeSample(s: WireSample) returns (r: Status, out: bytes)
    requires s.Shaped()
    ensures r == if Encodable(s) then Status.Ok else Failure(InvalidArgument)
    ensures r.Ok? ==> out == Render(RecordOf(s), false, 0)
  {
    hide EntriesOf, Render, RecordDraft;
    out := [];
    r := ValidateEncodable(s);
    if r.Failure? {
      return;
    }
    var writer := new JsonWriter(false);
    r := writer.BeginObject();
    EmptyRecord(s);
    r := EncodeHead(writer, s);
    r := EncodeOptional(writer, s);
    r := EncodeDeclared(writer, s);
    RecordEnds(s);
    r := writer.EndObject();
    out := writer.buffer;
  }

  lemma EmptyRecord(s: WireSample)
    requires s.Shaped()
    ensures Begin(START, ObjectFrame) == RecordDraft(s, 0)
  {}

  lemma RecordEnds(s: WireSample)
    requires s.Shaped()
    ensures RecordDraft(s, 33).Sound() && End(RecordDraft(s, 33), ObjectFrame) == Draft(Bottom, Some(RecordOf(s)), Status.Ok)
  {}

  // ---- reading one record -------------------------------------------------------------------

  /** The first member of a name. */
  method FindValue(members: seq<Member>, name: bytes) returns (r: Option<Json>)
    ensures r == Find(members, name)
  {
    assert members[0..] == members;
    for i := 0 to |members|
      invariant Find(members, name) == Find(members[i..], name)
    {
      assert members[i..][1..] == members[i + 1..];
      if members[i].name == name {
        return Some(members[i].value);
      }
    }
    return None;
  }

  /** The measurements of a record; nothing when one is not a number. */
  method ReadFields(members: seq<Member>) returns (r: Option<(set<nat>, seq<u64>)>)
    ensures r == if FieldsReadable(members)
                 then Some((Measured(members), seq(FIELD_COUNT, f requires 0 <= f < FIELD_COUNT => FieldValue(members, f))))
                 else None
  {
    hide KeyName, Find;
    var reported: set<nat>, values: seq<u64> := {}, [];
    for f := 0 to FIELD_COUNT
      invariant forall g :: 0 <= g < f && HasField(members, g) ==> RequireU64(members, FieldKey(g)).Some?
      invariant reported == set g: nat | g < f && HasField(members, g)
      invariant |values| == f && forall g :: 0 <= g < f ==> values[g] == FieldValue(members, g)
    {
      assert HasField(members, f) <==> Get(members, FieldKey(f)).Some?;
      if Get(members, FieldKey(f)).None? {
        values := values + [0];
        continue;
      }
      var parsed := RequireU64(members, FieldKey(f));
      if parsed.None? {
        return None;
      }
      reported, values := reported + {f}, values + [parsed.value];
    }
    assert values == seq(FIELD_COUNT, f requires 0 <= f < FIELD_COUNT => FieldValue(members, f));
    return Some((reported, values));
  }

  /** The declared names that are known, and how many are not. */
  method ReadDeclaredNames(items: seq<Json>) returns (r: Option<(set<nat>, nat)>)
    ensures r == ReadNames(items)
  {
    hide FindField;
    var declared: set<nat>, unknown: nat := {}, 0;
    for i := 0 to |items|
      invariant ReadNames(items[..i]) == Some((declared, unknown))
    {
      assert items[..i + 1][..i] == items[..i];
      if !items[i].Str? {
        NoNames(items, i + 1);
        return None;
      }
      var field := FindField(items[i].s, 0);
      if field.None? {
        unknown := unknown + 1;
        continue;
      }
      declared := declared + {field.value};
    }
    assert items[..|items|] == items;
    return Some((declared, unknown));
  }

  lemma {:induction false} NoNames(items: seq<Json>, k: nat)
    requires k <= |items| && ReadNames(items[..k]).None?
    ensures ReadNames(items).None?
    decreases |items|
  {
    if k == |items| {
      assert items[..k] == items;
    } else {
      assert items[..|items| - 1][..k] == items[..k];
      NoNames(items[..|items| - 1], k);
    }
  }

  /** How many members have names that no record uses. */
  method CountUnknown(members: seq<Member>) returns (n: nat)
    ensures n == UnknownKeys(members)
  {
    hide KeyName;
    n := 0;
    for i := 0 to |members|
      invariant n == UnknownKeys(members[..i])
    {
      assert members[..i + 1][..i] == members[..i];
      var known := false;
      for k := 0 to 33
        invariant known <==> exists l: Key :: l < k && KeyName(l) == members[i].name
      {
        var key: Key := k;
        if KeyName(key) == members[i].name {
          known := true;
        }
      }
      assert known <==> KnownKey(members[i].name);
      if !known {
        n := n + 1;
      }
    }
    assert members[..|members|] == members;
  }

  /** A sample record, member by member. */
  method ParseSampleRecord(members: seq<Member>, lim: IngestLimits) returns (r: Decoding<(WireSample, nat)>)
    ensures r == ReadSample(members, lim)
  {
    hide ReadIdentity, ReadAuthority, OptionalU64, ReadTraffic, ReadScheduling, ReadNames, FieldsReadable, Measured, FieldValue, UnknownKeys;
    var identity := ReadIdentity(members, lim);
    if identity.None? {
      return Bad(MalformedLine);
    }
    var sample := identity.value;
    var authority :- ReadAuthority(members);
    sample := sample.(authority := authority);
    var revision := OptionalU64(members, REVISION, 0);
    if revision.None? {
      return Bad(MalformedLine);
    }
    sample := sample.(revision := revision.value);
    var traffic :- ReadTraffic(members);
    sample := sample.(trafficClass := traffic);
    var scheduling :- ReadScheduling(members);
    sample := sample.(schedulingClass := scheduling);
    var fields := ReadFields(members);
    if fields.None? || fields.value.0 == {} {
      return Bad(MalformedLine);
    }
    sample := sample.(reported := fields.value.0, values := fields.value.1);
    var unknown: nat := 0;
    var declared := FindValue(members, KeyName(DECLARED));
    if declared.Some? {
      if !declared.value.Arr? {
        return Bad(MalformedLine);
      }
      var names := ReadDeclaredNames(declared.value.items);
      if names.None? {
        return Bad(MalformedLine);
      }
      sample, unknown := sample.(declared := names.value.0), names.value.1;
    } else {
      sample := sample.(declared := sample.reported);
    }
    var more := CountUnknown(members);
    return Good((sample, unknown + more));
  }

  // ---- the document -------------------------------------------------------------------------

  method FindNewline(payload: bytes, cursor: nat) returns (end: nat)
    requires cursor <= |payload|
    ensures end == cursor + LineEnd(payload[cursor..])
  {
    end := cursor;
    while end < |payload| && payload[end] != NEWLINE
      invariant cursor <= end <= |payload|
      invariant cursor + LineEnd(payload[cursor..]) == end + LineEnd(payload[end..])
    {
      assert payload[end..][1..] == payload[end + 1..];
      end := end + 1;
    }
  }

  /** What kind of record a line holds. */
  method ClassifyLine(raw: bytes, lim: IngestLimits) returns (k: LineKind)
    ensures k == KindOfLine(raw, lim)
  {
    hide ParseDocument, Trimmed, KeyName, OptionalU64;
    var line := raw;
    if line != [] && line[|line| - 1] == RETURN {
      line := line[..|line| - 1];
    }
    var trimmed := Trim(line);
    if trimmed == [] || trimmed[0] == HASH {
      return Skipped;
    }
    if |trimmed| > MAX_LINE_BYTES {
      return Unusable(MalformedLine);
    }
    var document := ParseJson(trimmed, lim.Json());
    if document.Fault? || !document.value.Obj? {
      return Unusable(MalformedLine);
    }
    var members := document.value.members;
    var kind := FindValue(members, KeyName(KIND));
    if kind.None? || !kind.value.Str? {
      return Unusable(MalformedLine);
    }
    var version := OptionalU64(members, VERSION, WIRE_VERSION);
    if version.None? {
      return Unusable(MalformedLine);
    }
    if version.value != WIRE_VERSION {
      return Unusable(WrongVersion);
    }
    if kind.value.s == SAMPLE_KIND {
      return SampleRecord(members);
    }
    if kind.value.s == TABLE_KIND {
      return TableRecord(members);
    }
    return Unusable(UnsupportedLine);
  }

  method DecodeLine(o: Outcome, line: nat, raw: bytes, lim: IngestLimits, tables: TableReader) returns (outcome: Outcome)
    ensures outcome == AfterLine(o, line, raw, lim, tables)
  {
    hide KindOfLine, ReadSample, Diagnosed;
    outcome := o;
    var k := ClassifyLine(raw, lim);
    if k.Skipped? {
      outcome := outcome.(skipped := outcome.skipped + 1);
      return;
    }
    outcome := outcome.(lines := outcome.lines + 1);
    match k {
      case Unusable(status) => outcome := WithBad(outcome, line, status);
      case SampleRecord(members) =>
        if |outcome.samples| >= lim.maxBatchSamples {
          return WithBad(outcome, line, MalformedLine);
        }
        var parsed := ParseSampleRecord(members, lim);
        match parsed {
          case Bad(status) => outcome := WithBad(outcome, line, status);
          case Good((s, unknown)) =>
            outcome := outcome.(unknownKeys := outcome.unknownKeys + unknown);
            outcome := outcome.(samples := outcome.samples + [s]);
            outcome := outcome.(sampleCount := outcome.sampleCount + 1, records := outcome.records + 1);
        }
      case TableRecord(members) =>
        if |outcome.metadata| >= lim.maxBatchMetadata {
          return WithBad(outcome, line, MalformedLine);
        }
        match tables(members) {
          case Bad(UnsupportedLine) => outcome := WithBad(outcome, line, UnsupportedLine);
          case Bad(_) => outcome := WithBad(outcome, line, MalformedLine);
          case Good(t) =>
            outcome := outcome.(metadata := outcome.metadata + [t], metadataCount := outcome.metadataCount + 1);
            outcome := outcome.(metadataRecords := outcome.metadataRecords + 1, records := outcome.records + 1);
        }
    }
  }

  /** A document, line by line. */
  method DecodeDocument(payload: bytes, lim: IngestLimits, tables: TableReader) returns (r: Result<Outcome>)
    ensures r == Decode(payload, lim, tables)
  {
    hide LineEnd, AfterLine, AfterLines, Lines;
    if !lim.Valid() {
      return Fault(InvalidArgument);
    }
    if |payload| > lim.maxPayloadBytes {
      return Fault(LimitExceeded);
    }
    var outcome, lineNumber, cursor := NOTHING, 0, 0;
    ghost var done: seq<bytes> := [];
    assert payload[0..] == payload && [] + Lines(payload) == Lines(payload);
    assert AfterLines([], lim, tables) == NOTHING by { NothingDecoded(lim, tables); }
    while cursor <= |payload|
      invariant cursor <= |payload| + 1 && lineNumber == |done|
      invariant outcome == AfterLines(done, lim, tables)
      invariant if cursor <= |payload| then Lines(payload) == done + Lines(payload[cursor..]) else Lines(payload) == done
      decreases |payload| + 1 - cursor
    {
      var end := FindNewline(payload, cursor);
      var line := payload[cursor..end];
      NextLine(payload, cursor, end, done);
      lineNumber := lineNumber + 1;
      outcome := DecodeLine(outcome, lineNumber, line, lim, tables);
      OneMoreDecoded(done, line, lim, tables);
      done := done + [line];
      cursor := end + 1;
    }
    return Success(outcome);
  }

  lemma NothingDecoded(lim: IngestLimits, tables: TableReader)
    ensures AfterLines([], lim, tables) == NOTHING
  {}

  lemma OneMoreDecoded(done: seq<bytes>, line: bytes, lim: IngestLimits, tables: TableReader)
    ensures AfterLines(done + [line], lim, tables) == AfterLine(AfterLines(done, lim, tables), |done| + 1, line, lim, tables)
  {
    hide AfterLine;
    assert (done + [line])[..|done|] == done;
  }

  lemma NextLine(payload: bytes, cursor: nat, end: nat, done: seq<bytes>)
    requires cursor <= |payload| && end == cursor + LineEnd(payload[cursor..])
    ensures var line := payload[cursor..end];
            done + Lines(payload[cursor..])
            == if end == |payload| then done + [line] else (done + [line]) + Lines(payload[end + 1..])
  {
    hide LineEnd;
    var rest, line := payload[cursor..], payload[cursor..end];
    assert rest[..end - cursor] == line;
    if end < |payload| {
      assert rest[end - cursor + 1..] == payload[end + 1..];
      assert Lines(rest) == [line] + Lines(payload[end + 1..]);
    } else {
      assert rest == line && Lines(rest) == [line];
    }
  }
}
