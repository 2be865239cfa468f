/** The newline-delimited observation format: what a sample looks like as a record, and what
    a decoder makes of any octets, line by line. */
module Wire {
  import opened Wrappers
  import opened Bytes
  import opened Text
  import opened Identity
  import opened JsonSpec
  import opened Evidence

  const WIRE_VERSION := 1
  const MAX_LINE_BYTES := 0x10_0000
  const MAX_DIAGNOSTICS := 64
  const MAX_OBJECT_MEMBERS := 64
  const FIELD_COUNT := 17
  const HASH: byte := 0x23
  const RETURN: byte := 0x0D

  // ---- names --------------------------------------------------------------------------------

  function Ascii(s: string): bytes {
    seq(|s|, i requires 0 <= i < |s| => if s[i] as int < 0x80 then s[i] as int else 0)
  }

  /** Member names, numbered in the order a record is written. */
  type Key = k: nat | k < 33
  const KIND: Key := 0
  const VERSION: Key := 1
  const DEVICE: Key := 2
  const PORT: Key := 3
  const QUEUE: Key := 4
  const SOURCE: Key := 5
  const INCARNATION: Key := 6
  const GENERATION: Key := 7
  const SEQUENCE: Key := 8
  const AUTHORITY: Key := 9
  const OBSERVED: Key := 10
  const DOMAIN: Key := 11
  const REVISION: Key := 12
  const TRAFFIC: Key := 13
  const SCHEDULING: Key := 14
  const FIRST_FIELD: Key := 15
  const DECLARED: Key := 32

  function HeadText(k: Key): string {
    match k
    case 0 => "kind"
    case 1 => "v"
    case 2 => "device"
    case 3 => "port"
    case 4 => "queue"
    case 5 => "source"
    case 6 => "incarnation"
    case 7 => "generation"
    case 8 => "sequence"
    case 9 => "authority"
    case 10 => "observed_ns"
    case 11 => "clock_domain"
    case 12 => "revision"
    case 13 => "traffic_class"
    case _ => "scheduling_class"
  }

  /** The names of the measurements. */
  function MeasureText(f: nat): string {
    match f
    case 0 => "occupancy_bytes"
    case 1 => "occupancy_cells"
    case 2 => "queue_depth_packets"
    case 3 => "shared_buffer_cells"
    case 4 => "headroom_cells"
    case 5 => "reserved_cells"
    case 6 => "static_threshold_cells"
    case 7 => "dynamic_threshold_cells"
    case 8 => "max_depth_packets"
    case 9 => "high_watermark_cells"
    case 10 => "enqueue_packets"
    case 11 => "dequeue_packets"
    case 12 => "drop_packets"
    case 13 => "drop_bytes"
    case 14 => "mark_packets"
    case 15 => "pause_frames"
    case _ => "pause_duration_nanos"
  }

  function KeyText(k: Key): string {
    if k < FIRST_FIELD then HeadText(k) else if k < DECLARED then MeasureText(k - FIRST_FIELD) else "declared"
  }

  function KeyName(k: Key): bytes {
    Ascii(KeyText(k))
  }

  function FieldKey(f: nat): Key
    requires f < FIELD_COUNT
  {
    FIRST_FIELD + f
  }

  const SAMPLE_KIND: bytes := Ascii("queue_sample")
  const TABLE_KIND: bytes := Ascii("class_metadata")

  function AuthorityName(a: Authority): bytes {
    match a
    case 0 => Ascii("unknown")
    case 1 => Ascii("secondary")
    case 2 => Ascii("primary")
    case _ => Ascii("authoritative")
  }

  function ParseAuthority(s: bytes): Option<Authority> {
    if s == AuthorityName(0) then Some(0)
    else if s == AuthorityName(1) then Some(1)
    else if s == AuthorityName(2) then Some(2)
    else if s == AuthorityName(3) then Some(3)
    else None
  }

  /** The first measurement, from one on, that has the name. */
  function FindField(s: bytes, from: nat): (r: Option<nat>)
    ensures r.Some? ==> from <= r.value < FIELD_COUNT
    decreases FIELD_COUNT - from
  {
    if from >= FIELD_COUNT then None
    else if KeyName(FieldKey(from)) == s then Some(from)
    else FindField(s, from + 1)
  }

  // ---- entities -------------------------------------------------------------------------------

  /** What a record carries of a sample. Times of receipt and the origin of class attributes
      are the receiver's. Masks are sets of bit positions; there are 17 measurements. */
  datatype WireSample = WireSample(
    path: QueuePath, source: Name, incarnation: Name, generation: u64, sequence: u64, authority: Authority,
    observedNs: i64, domain: Name, revision: u64, trafficClass: Option<u16>, schedulingClass: Option<Name>,
    reported: set<nat>, values: seq<u64>, declared: set<nat>)
  {
    predicate Shaped() {
      |values| == FIELD_COUNT
    }
  }

  type Table(!new, ==)

  datatype IngestLimits = IngestLimits(
    maxBatchSamples: nat, maxPayloadBytes: nat, maxFieldBytes: nat, maxJsonDepth: nat, maxJsonNodes: nat,
    maxBatchQueues: nat, maxBatchMetadata: nat)
  {
    predicate Valid() {
      && maxBatchSamples > 0 && maxPayloadBytes > 0 && maxFieldBytes > 0 && maxJsonDepth > 0 && maxJsonNodes > 0
      && maxBatchQueues > 0 && maxBatchMetadata > 0
      && maxJsonDepth <= 128 && maxFieldBytes <= 0x10_0000
    }

    function Json(): JsonLimits {
      JsonLimits(MAX_LINE_BYTES, maxJsonDepth, maxJsonNodes, maxFieldBytes, MAX_OBJECT_MEMBERS, maxBatchMetadata)
    }
  }

  datatype DecodeStatus = MalformedLine | UnsupportedLine | WrongVersion

  datatype Decoding<+T> = Bad(status: DecodeStatus) | Good(value: T) {
    predicate IsFailure() { Bad? }
    function PropagateFailure<U>(): Decoding<U>
      requires Bad?
    {
      Bad(status)
    }
    function Extract(): T
      requires Good?
    {
      value
    }
  }

  datatype Diagnostic = Diagnostic(line: nat, status: DecodeStatus)

  datatype Outcome = Outcome(
    lines: nat, records: nat, sampleCount: nat, metadataCount: nat, metadataRecords: nat, skipped: nat, malformed: nat,
    unsupported: nat, versionMismatches: nat, unknownKeys: nat, samples: seq<WireSample>, metadata: seq<Table>,
    diagnostics: seq<Diagnostic>, truncated: bool)

  const NOTHING := Outcome(0, 0, 0, 0, 0, 0, 0, 0, 0, 0, [], [], [], false)

  // ---- writing a record -----------------------------------------------------------------------

  /** What the canonical form asks of a sample. */
  predicate Encodable(s: WireSample) {
    s.path.Valid() && s.source != [] && s.incarnation != [] && s.generation != 0 && s.sequence != 0
    && s.domain != [] && s.reported != {}
  }

  function DeclaredNames(declared: set<nat>, n: nat): seq<Json>
    requires n <= FIELD_COUNT
  {
    if n == 0 then []
    else DeclaredNames(declared, n - 1) + if n - 1 in declared then [Str(KeyName(FieldKey(n - 1)))] else []
  }

  /** The member a record has under a name, if it has one. */
  function EntryOf(s: WireSample, k: Key): Option<Json>
    requires s.Shaped()
  {
    if k == KIND then Some(Str(SAMPLE_KIND))
    else if k == VERSION then Some(Uint(WIRE_VERSION))
    else if k == DEVICE then Some(Str(s.path.device))
    else if k == PORT then Some(Str(s.path.port))
    else if k == QUEUE then Some(Uint(s.path.queue))
    else if k == SOURCE then Some(Str(s.source))
    else if k == INCARNATION then Some(Str(s.incarnation))
    else if k == GENERATION then Some(Uint(s.generation))
    else if k == SEQUENCE then Some(Uint(s.sequence))
    else if k == AUTHORITY then Some(Str(AuthorityName(s.authority)))
    else if k == OBSERVED then Some(Int(s.observedNs))
    else if k == DOMAIN then Some(Str(s.domain))
    else if k == REVISION then if s.revision != 0 then Some(Uint(s.revision)) else None
    else if k == TRAFFIC then if s.trafficClass.Some? then Some(Uint(s.trafficClass.value)) else None
    else if k == SCHEDULING then if s.schedulingClass.Some? then Some(Str(s.schedulingClass.value)) else None
    else if k == DECLARED then Some(Arr(DeclaredNames(s.declared, FIELD_COUNT)))
    else if k - FIRST_FIELD in s.reported then Some(Uint(s.values[k - FIRST_FIELD]))
    else None
  }

  function EntriesOf(s: WireSample, n: nat): seq<Member>
    requires s.Shaped() && n <= 33
  {
    if n == 0 then []
    else
      var entry := EntryOf(s, n - 1);
      EntriesOf(s, n - 1) + if entry.Some? then [Member(KeyName(n - 1), entry.value)] else []
  }

  function RecordOf(s: WireSample): Json
    requires s.Shaped()
  {
    Obj(EntriesOf(s, 33))
  }

  // ---- reading a record -----------------------------------------------------------------------

  function Find(members: seq<Member>, name: bytes): Option<Json> {
    if members == [] then None
    else if members[0].name == name then Some(members[0].value)
    else Find(members[1..], name)
  }

  function Get(members: seq<Member>, k: Key): Option<Json> {
    Find(members, KeyName(k))
  }

  function AsU64(v: Json): Option<u64> {
    match v
    case Uint(u) => Some(u)
    case Int(i) => if i >= 0 then Some(i) else None
    case _ => None
  }

  function RequireU64(members: seq<Member>, k: Key): Option<u64> {
    var v :- Get(members, k);
    AsU64(v)
  }

  /** A number that may be absent; None when there is something else in its place. */
  function OptionalU64(members: seq<Member>, k: Key, fallback: u64): Option<u64> {
    if Get(members, k).None? then Some(fallback) else RequireU64(members, k)
  }

  function RequireString(members: seq<Member>, k: Key, lim: IngestLimits): Option<bytes> {
    var v :- Get(members, k);
    if v.Str? && |v.s| <= lim.maxFieldBytes then Some(v.s) else None
  }

  /** The identity of a sample, nothing else reported yet. */
  function ReadIdentity(members: seq<Member>, lim: IngestLimits): Option<WireSample> {
    var device :- RequireString(members, DEVICE, lim);
    var port :- RequireString(members, PORT, lim);
    var source :- RequireString(members, SOURCE, lim);
    var incarnation :- RequireString(members, INCARNATION, lim);
    var domain :- RequireString(members, DOMAIN, lim);
    var queue :- RequireU64(members, QUEUE);
    var generation :- RequireU64(members, GENERATION);
    var sequence :- RequireU64(members, SEQUENCE);
    var observed :- RequireU64(members, OBSERVED);
    if ValidPathName(device) && ValidPathName(port) && ValidName(source) && ValidName(incarnation) && ValidName(domain)
       && queue < U32_LIMIT && observed <= I64_MAX
    then
      Some(WireSample(QueuePath(device, port, queue), source, incarnation, generation, sequence, AUTHORITY_UNKNOWN,
                      observed, domain, 0, None, None, {}, [], {}))
    else None
  }

  function ReadAuthority(members: seq<Member>): Decoding<Authority> {
    match Get(members, AUTHORITY)
    case None => Good(AUTHORITY_UNKNOWN)
    case Some(Str(s)) =>
      var a := ParseAuthority(s);
      if a.Some? then Good(a.value) else Bad(UnsupportedLine)
    case Some(_) => Bad(MalformedLine)
  }

  function ReadTraffic(members: seq<Member>): Decoding<Option<u16>> {
    if Get(members, TRAFFIC).None? then Good(None)
    else
      var v := RequireU64(members, TRAFFIC);
      if v.Some? && v.value < U16_LIMIT then Good(Some(v.value)) else Bad(MalformedLine)
  }

  function ReadScheduling(members: seq<Member>): Decoding<Option<Name>> {
    match Get(members, SCHEDULING)
    case None => Good(None)
    case Some(Str(s)) => if ValidName(s) then Good(Some(s)) else Bad(MalformedLine)
    case Some(_) => Bad(MalformedLine)
  }

  predicate HasField(members: seq<Member>, f: nat)
    requires f < FIELD_COUNT
  {
    Get(members, FieldKey(f)).Some?
  }

  function FieldValue(members: seq<Member>, f: nat): u64
    requires f < FIELD_COUNT
  {
    RequireU64(members, FieldKey(f)).GetOr(0)
  }

  predicate FieldsReadable(members: seq<Member>) {
    forall f :: 0 <= f < FIELD_COUNT && HasField(members, f) ==> RequireU64(members, FieldKey(f)).Some?
  }

  function Measured(members: seq<Member>): set<nat> {
    set f: nat | f < FIELD_COUNT && HasField(members, f)
  }

  /** Known names are collected, unknown ones counted; anything but a string is an error. */
  function ReadNames(items: seq<Json>): Option<(set<nat>, nat)> {
    if items == [] then Some(({}, 0))
    else
      var (names, unknown) :- ReadNames(items[..|items| - 1]);
      var last := items[|items| - 1];
      if !last.Str? then None
      else
        var f := FindField(last.s, 0);
        if f.Some? then Some((names + {f.value}, unknown)) else Some((names, unknown + 1))
  }

  /** What the sender says it reports: what it reports, unless it says otherwise. */
  function ReadDeclared(members: seq<Member>): Option<(set<nat>, nat)> {
    match Get(members, DECLARED)
    case None => Some((Measured(members), 0))
    case Some(Arr(items)) => ReadNames(items)
    case Some(_) => None
  }

  predicate KnownKey(name: bytes) {
    exists k: Key :: KeyName(k) == name
  }

  function UnknownKeys(members: seq<Member>): nat {
    if members == [] then 0
    else UnknownKeys(members[..|members| - 1]) + if KnownKey(members[|members| - 1].name) then 0 else 1
  }

  /** A sample and how many names in its record were not recognised. */
  function ReadSample(members: seq<Member>, lim: IngestLimits): Decoding<(WireSample, nat)> {
    var base := ReadIdentity(members, lim);
    if base.None? then Bad(MalformedLine)
    else
      var authority :- ReadAuthority(members);
      var revision := OptionalU64(members, REVISION, 0);
      if revision.None? then Bad(MalformedLine)
      else
        var traffic :- ReadTraffic(members);
        var scheduling :- ReadScheduling(members);
        if !FieldsReadable(members) || Measured(members) == {} then Bad(MalformedLine)
        else
          var declared := ReadDeclared(members);
          if declared.None? then Bad(MalformedLine)
          else
            Good((base.value.(authority := authority, revision := revision.value, trafficClass := traffic,
                              schedulingClass := scheduling, reported := Measured(members),
                              values := seq(FIELD_COUNT, f requires 0 <= f < FIELD_COUNT => FieldValue(members, f)),
                              declared := declared.value.0),
                  declared.value.1 + UnknownKeys(members)))
  }

  // ---- documents ------------------------------------------------------------------------------

  /** Where the first line ends. */
  function LineEnd(s: bytes): (n: nat)
    ensures n <= |s|
    ensures n < |s| ==> s[n] == NEWLINE
    ensures forall i :: 0 <= i < n ==> s[i] != NEWLINE
  {
    if s == [] || s[0] == NEWLINE then 0 else 1 + LineEnd(s[1..])
  }

  /** The pieces between newlines; there is always one. */
  function Lines(s: bytes): (r: seq<bytes>)
    decreases |s|
  {
    var n := LineEnd(s);
    if n == |s| then [s] else [s[..n]] + Lines(s[n + 1..])
  }

  /** What a line is, before its record is read. */
  datatype LineKind = Skipped | Unusable(status: DecodeStatus) | SampleRecord(members: seq<Member>) | TableRecord(members: seq<Member>)

  function WithoutReturn(raw: bytes): bytes {
    if raw != [] && raw[|raw| - 1] == RETURN then raw[..|raw| - 1] else raw
  }

  function KindOfRecord(members: seq<Member>): LineKind {
    match Get(members, KIND)
    case Some(Str(kind)) =>
      var version := OptionalU64(members, VERSION, WIRE_VERSION);
      if version.None? then Unusable(MalformedLine)
      else if version.value != WIRE_VERSION then Unusable(WrongVersion)
      else if kind == SAMPLE_KIND then SampleRecord(members)
      else if kind == TABLE_KIND then TableRecord(members)
      else Unusable(UnsupportedLine)
    case _ => Unusable(MalformedLine)
  }

  function KindOfLine(raw: bytes, lim: IngestLimits): LineKind {
    var line := Trimmed(WithoutReturn(raw));
    if line == [] || line[0] == HASH then Skipped
    else if |line| > MAX_LINE_BYTES then Unusable(MalformedLine)
    else
      match ParseDocument(line, lim.Json())
      case Success(Obj(members)) => KindOfRecord(members)
      case _ => Unusable(MalformedLine)
  }

  function Diagnosed(o: Outcome, line: nat, status: DecodeStatus): Outcome {
    if |o.diagnostics| >= MAX_DIAGNOSTICS then o.(truncated := true)
    else o.(diagnostics := o.diagnostics + [Diagnostic(line, status)])
  }

  function WithBad(o: Outcome, line: nat, status: DecodeStatus): Outcome {
    var counted :=
      match status
      case MalformedLine => o.(malformed := o.malformed + 1)
      case UnsupportedLine => o.(unsupported := o.unsupported + 1)
      case WrongVersion => o.(versionMismatches := o.versionMismatches + 1);
    Diagnosed(counted, line, status)
  }

  function WithSample(o: Outcome, s: WireSample, unknown: nat): Outcome {
    o.(unknownKeys := o.unknownKeys + unknown, samples := o.samples + [s], sampleCount := o.sampleCount + 1,
       records := o.records + 1)
  }

  function WithTable(o: Outcome, t: Table): Outcome {
    o.(metadata := o.metadata + [t], metadataCount := o.metadataCount + 1, metadataRecords := o.metadataRecords + 1,
       records := o.records + 1)
  }

  /** How class metadata records are read is a parameter. */
  type TableReader = seq<Member> -> Decoding<Table>

  /** A line of this kind would be turned away because the document is full. */
  predicate AtLimit(o: Outcome, k: LineKind, lim: IngestLimits) {
    (k.SampleRecord? && |o.samples| >= lim.maxBatchSamples) || (k.TableRecord? && |o.metadata| >= lim.maxBatchMetadata)
  }

  function WithRecord(o: Outcome, line: nat, k: LineKind, lim: IngestLimits, tables: TableReader): Outcome
    requires !k.Skipped?
  {
    if AtLimit(o, k, lim) then WithBad(o, line, MalformedLine)
    else
      match k
      case Unusable(status) => WithBad(o, line, status)
      case SampleRecord(members) =>
        (match ReadSample(members, lim)
         case Bad(status) => WithBad(o, line, status)
         case Good((s, unknown)) => WithSample(o, s, unknown))
      case TableRecord(members) =>
        match tables(members)
        case Bad(UnsupportedLine) => WithBad(o, line, UnsupportedLine)
        case Bad(_) => WithBad(o, line, MalformedLine)
        case Good(t) => WithTable(o, t)
  }

  function AfterLine(o: Outcome, line: nat, raw: bytes, lim: IngestLimits, tables: TableReader): Outcome {
    var k := KindOfLine(raw, lim);
    if k.Skipped? then o.(skipped := o.skipped + 1)
    else WithRecord(o.(lines := o.lines + 1), line, k, lim, tables)
  }

  function AfterLines(lines: seq<bytes>, lim: IngestLimits, tables: TableReader): Outcome {
    if lines == [] then NOTHING
    else AfterLine(AfterLines(lines[..|lines| - 1], lim, tables), |lines|, lines[|lines| - 1], lim, tables)
  }

  function Decode(payload: bytes, lim: IngestLimits, tables: TableReader): Result<Outcome> {
    if !lim.Valid() then Fault(InvalidArgument)
    else if |payload| > lim.maxPayloadBytes then Fault(LimitExceeded)
    else Success(AfterLines(Lines(payload), lim, tables))
  }
}
