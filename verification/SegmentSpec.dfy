/** The durable segment as a grammar: what each field, record and segment looks
    like as octets, and what a reader makes of any octets it is given.

    A writer function takes the octets that follow it, so that nesting writers
    in field order spells the layout; its postcondition says that the matching
    reader, given the result, gets the value and those octets back. */
module SegmentSpec {
  import opened Wrappers
  import opened Bytes
  import opened Identity
  import Crc32c

  // ---- entities ---------------------------------------------------------------

  const FIELD_COUNT := 17
  const PRESSURE_STATE_COUNT := 10
  const EVENT_KIND_COUNT := 27
  const MAX_RUNTIME_ID_BYTES := 64
  const HEADER_SIZE := 80
  const RECORD_HEADER_SIZE := 12
  const FORMAT_VERSION := 1
  const VERSION_MAJOR := 1
  const VERSION_MINOR := 0
  const VERSION_PATCH := 0
  // "QOBSSEG1"
  const MAGIC: bytes := [0x51, 0x4F, 0x42, 0x53, 0x53, 0x45, 0x47, 0x31]

  const SESSION_HEADER: u8 := 0x01
  const QUEUE_SNAPSHOT: u8 := 0x02
  const EVENT_BATCH: u8 := 0x03
  const SOURCE_REGISTRY: u8 := 0x04
  const METADATA_TABLE: u8 := 0x05

  /** A 64-bit mask as the set of its bit positions. */
  type FieldMask = m: set<nat> | forall i :: i in m ==> i < 64

  datatype DurableSample = DurableSample(
    observedNs: i64, domain: Name, receivedWall: i64, receivedSteady: i64,
    source: Name, incarnation: Name, generation: u64, sequence: u64, authority: u8,
    reported: FieldMask, values: seq<u64>, state: u8, freshness: u8, quality: u8, ageNs: i64)

  datatype DurableQueueState = DurableQueueState(
    path: QueuePath, classesKnown: bool, trafficClass: Option<u16>, schedulingClass: Option<Name>,
    origin: u8, metadataRevision: u64, samples: seq<DurableSample>)

  datatype Incarnation = Incarnation(token: Name, ordinal: u64)

  datatype SourceRecord = SourceRecord(
    id: Name, authority: u8, declaredAuthority: u8, incarnation: Name, ordinal: u64,
    lastSequence: u64, generation: u64, clockDomain: Name,
    firstWall: i64, firstSteady: i64, lastWall: i64, lastSteady: i64,
    accepted: u64, fenced: u64, duplicates: u64, rejected: u64, lastObservedNs: u64,
    recent: seq<Incarnation>)

  datatype EventRecord = EventRecord(
    kind: u8, severity: u8, receivedWall: i64, receivedSteady: i64, observedNs: i64, domain: Name,
    path: QueuePath, source: Name, incarnation: Name, sequence: u64, revision: u64, detail: bytes)

  datatype TrafficClass = TrafficClass(
    id: u16, name: bytes, dscp: Option<u16>, priority: Option<u16>, schedulingClass: Option<Name>)

  datatype SchedulingClass = SchedulingClass(id: Name, mode: bytes, weight: Option<u64>)

  datatype Binding = Binding(path: QueuePath, trafficClass: Option<u16>, schedulingClass: Option<Name>)

  datatype Metadata = Metadata(
    revision: u64, generation: u64, source: Name, authority: u8, receivedWall: i64, receivedSteady: i64,
    trafficClasses: seq<TrafficClass>, schedulingClasses: seq<SchedulingClass>, bindings: seq<Binding>)

  const DEFAULT_METADATA := Metadata(0, 0, [], 0, 0, 0, [], [], [])

  datatype Snapshot = Snapshot(
    runtimeId: bytes, createdWall: i64, createdSteady: i64, policyVersion: u32, policyName: bytes,
    queues: seq<DurableQueueState>, events: seq<EventRecord>, sources: seq<SourceRecord>,
    metadata: Metadata, hasMetadata: bool)

  const DEFAULT_SNAPSHOT := Snapshot([], 0, 0, 0, [], [], [], [], DEFAULT_METADATA, false)

  datatype PersistenceLimits = PersistenceLimits(
    maxSegmentBytes: u64, maxSegmentRecords: u64, maxRecordBytes: u64, maxMetadataBytes: u64,
    maxSegments: u64)
  {
    predicate Valid() {
      && maxSegmentBytes > 0 && maxSegmentRecords > 0 && maxRecordBytes > 0
      && maxSegments > 0 && maxMetadataBytes > 0
      && maxRecordBytes <= maxSegmentBytes && maxMetadataBytes <= maxSegmentBytes
      && maxSegments <= 1024
    }
  }

  // ---- reading --------------------------------------------------------------------

  /** What a reader makes of the front of its input: nothing, or a value and the rest. */
  datatype Read<+T> = Refused | Got(value: T, rest: bytes) {
    predicate IsFailure() { Refused? }
    function PropagateFailure<U>(): Read<U>
      requires Refused?
    {
      Refused
    }
    function Extract(): (T, bytes)
      requires Got?
    {
      (value, rest)
    }
  }

  /** A list that was read up to its first unusable element. */
  datatype Items<+T> = Items(ok: bool, items: seq<T>, rest: bytes)

  function GetU8(s: bytes): Read<u8> {
    if s == [] then Refused else Got(s[0], s[1..])
  }

  function GetInteger(s: bytes, n: nat): (r: Read<nat>)
    ensures r.Got? ==> r.value < Pow256(n)
  {
    if |s| < n then Refused else Got(FromLittleEndian(s[..n]), s[n..])
  }

  function GetU16(s: bytes): Read<u16> {
    PowerLimits();
    var (v, s) :- GetInteger(s, 2);
    Got(v, s)
  }

  function GetU32(s: bytes): Read<u32> {
    PowerLimits();
    var (v, s) :- GetInteger(s, 4);
    Got(v, s)
  }

  function GetU64(s: bytes): Read<u64> {
    PowerLimits();
    var (v, s) :- GetInteger(s, 8);
    Got(v, s)
  }

  function GetI64(s: bytes): Read<i64> {
    var (v, s) :- GetU64(s);
    Got(ToI64(v), s)
  }

  function GetString(s: bytes, maxLength: nat, maxField: nat): Read<bytes> {
    var (n, s) :- GetU32(s);
    if n > maxLength || n > maxField || n > |s| then Refused else Got(s[..n], s[n..])
  }

  function GetName(s: bytes, maxField: nat): Read<Name> {
    GetString(s, MAX_IDENTITY_LENGTH, maxField)
  }

  /** An element count; more elements than octets left is corrupt by construction. */
  function GetCount(s: bytes): (r: Read<u32>) {
    var (n, s) :- GetU32(s);
    if n > |s| then Refused else Got(n, s)
  }

  function GetOptionalU16(s: bytes): Read<Option<u16>> {
    var (present, s) :- GetU8(s);
    if present == 0 then Got(None, s)
    else
      var (v, s) :- GetU16(s);
      Got(Some(v), s)
  }

  function GetOptionalU64(s: bytes): Read<Option<u64>> {
    var (present, s) :- GetU8(s);
    if present == 0 then Got(None, s)
    else
      var (v, s) :- GetU64(s);
      Got(Some(v), s)
  }

  function GetOptionalName(s: bytes, maxField: nat): Read<Option<Name>> {
    var (present, s) :- GetU8(s);
    if present == 0 then Got(None, s)
    else
      var (v, s) :- GetName(s, maxField);
      Got(Some(v), s)
  }

  /** The listed fields become the mask; a repeated field changes nothing. */
  function GetListedFields(n: nat, mask: FieldMask, s: bytes): Read<FieldMask>
    decreases n
  {
    if n == 0 then Got(mask, s)
    else
      var (field, s) :- GetU8(s);
      if field >= FIELD_COUNT then Refused else GetListedFields(n - 1, mask + {field}, s)
  }

  function GetBitmap(s: bytes): Read<FieldMask> {
    var (n, s) :- GetU8(s);
    GetListedFields(n, {}, s)
  }

  function GetFieldValues(mask: FieldMask, i: nat, values: seq<u64>, s: bytes): Read<seq<u64>>
    requires i <= FIELD_COUNT == |values|
    decreases FIELD_COUNT - i
  {
    if i == FIELD_COUNT then Got(values, s)
    else if i in mask then
      var (v, s) :- GetU64(s);
      GetFieldValues(mask, i + 1, values[i := v], s)
    else GetFieldValues(mask, i + 1, values, s)
  }

  function NoValues(): (r: seq<u64>)
    ensures |r| == FIELD_COUNT && forall i :: 0 <= i < FIELD_COUNT ==> r[i] == 0
  {
    seq(FIELD_COUNT, _ => 0)
  }

  /** The mask word is read and then replaced by the listed fields. */
  function GetSample(s: bytes, maxField: nat): Read<DurableSample> {
    var (observedNs, s) :- GetI64(s);
    var (domain, s) :- GetName(s, maxField);
    if !ValidOptionalName(domain) then Refused else
    var (receivedWall, s) :- GetI64(s);
    var (receivedSteady, s) :- GetI64(s);
    var (source, s) :- GetName(s, maxField);
    if !ValidOptionalName(source) then Refused else
    var (incarnation, s) :- GetName(s, maxField);
    if !ValidOptionalName(incarnation) then Refused else
    var (generation, s) :- GetU64(s);
    var (sequence, s) :- GetU64(s);
    var (authority, s) :- GetU8(s);
    var (_, s) :- GetU64(s);
    var (reported, s) :- GetBitmap(s);
    var (values, s) :- GetFieldValues(reported, 0, NoValues(), s);
    var (state, s) :- GetU8(s);
    var (freshness, s) :- GetU8(s);
    var (quality, s) :- GetU8(s);
    var (ageNs, s) :- GetI64(s);
    if state >= PRESSURE_STATE_COUNT then Refused else
    Got(DurableSample(observedNs, domain, receivedWall, receivedSteady, source, incarnation,
                      generation, sequence, authority, reported, values, state, freshness,
                      quality, ageNs), s)
  }

  function GetSamples(n: nat, s: bytes, maxField: nat): Read<seq<DurableSample>>
    decreases n
  {
    if n == 0 then Got([], s)
    else
      var (first, s) :- GetSample(s, maxField);
      var (others, s) :- GetSamples(n - 1, s, maxField);
      Got([first] + others, s)
  }

  function GetQueueRecord(s: bytes, limits: PersistenceLimits): Read<DurableQueueState> {
    var maxField := limits.maxRecordBytes;
    var (device, s) :- GetName(s, maxField);
    var (port, s) :- GetName(s, maxField);
    var (queue, s) :- GetU32(s);
    if !ValidPathName(device) || !ValidPathName(port) then Refused else
    var (known, s) :- GetU8(s);
    var (trafficClass, s) :- GetOptionalU16(s);
    var (schedulingClass, s) :- GetOptionalName(s, maxField);
    var (origin, s) :- GetU8(s);
    var (metadataRevision, s) :- GetU64(s);
    if schedulingClass.Some? && !ValidName(schedulingClass.value) then Refused else
    var (n, s) :- GetCount(s);
    if n > limits.maxSegmentRecords then Refused else
    var (samples, s) :- GetSamples(n, s, maxField);
    Got(DurableQueueState(QueuePath(device, port, queue), known != 0, trafficClass, schedulingClass,
                          origin, metadataRevision, samples), s)
  }

  function GetIncarnations(n: nat, s: bytes, maxField: nat): Read<seq<Incarnation>>
    decreases n
  {
    if n == 0 then Got([], s)
    else
      var (token, s) :- GetName(s, maxField);
      var (ordinal, s) :- GetU64(s);
      if !ValidName(token) then Refused else
      var (others, s) :- GetIncarnations(n - 1, s, maxField);
      Got([Incarnation(token, ordinal)] + others, s)
  }

  function GetSource(s: bytes, maxField: nat): Read<SourceRecord> {
    var (id, s) :- GetName(s, maxField);
    if !ValidName(id) then Refused else
    var (authority, s) :- GetU8(s);
    var (declared, s) :- GetU8(s);
    var (incarnation, s) :- GetName(s, maxField);
    if !ValidOptionalName(incarnation) then Refused else
    var (ordinal, s) :- GetU64(s);
    var (sequence, s) :- GetU64(s);
    var (generation, s) :- GetU64(s);
    var (domain, s) :- GetName(s, maxField);
    if !ValidOptionalName(domain) then Refused else
    var (firstWall, s) :- GetI64(s);
    var (firstSteady, s) :- GetI64(s);
    var (lastWall, s) :- GetI64(s);
    var (lastSteady, s) :- GetI64(s);
    var (accepted, s) :- GetU64(s);
    var (fenced, s) :- GetU64(s);
    var (duplicates, s) :- GetU64(s);
    var (rejected, s) :- GetU64(s);
    var (lastObserved, s) :- GetI64(s);
    var (n, s) :- GetCount(s);
    var (recent, s) :- GetIncarnations(n, s, maxField);
    Got(SourceRecord(id, authority, declared, incarnation, ordinal, sequence, generation, domain,
                     firstWall, firstSteady, lastWall, lastSteady, accepted, fenced, duplicates,
                     rejected, ToU64(lastObserved), recent), s)
  }

  function GetSources(n: nat, s: bytes, maxField: nat): (r: Items<SourceRecord>)
    decreases n
  {
    if n == 0 then Items(true, [], s)
    else
      match GetSource(s, maxField)
      case Refused => Items(false, [], s)
      case Got(first, s) =>
        var others := GetSources(n - 1, s, maxField);
        others.(items := [first] + others.items)
  }

  function GetSourceRegistry(s: bytes, maxField: nat): Items<SourceRecord> {
    match GetCount(s)
    case Refused => Items(false, [], s)
    case Got(n, s) => GetSources(n, s, maxField)
  }

  function GetEvent(s: bytes, maxField: nat): Read<EventRecord> {
    var (kind, s) :- GetU8(s);
    var (severity, s) :- GetU8(s);
    if kind >= EVENT_KIND_COUNT then Refused else
    var (receivedWall, s) :- GetI64(s);
    var (receivedSteady, s) :- GetI64(s);
    var (observedNs, s) :- GetI64(s);
    var (domain, s) :- GetName(s, maxField);
    var (device, s) :- GetName(s, maxField);
    var (port, s) :- GetName(s, maxField);
    var (queue, s) :- GetU32(s);
    var (source, s) :- GetName(s, maxField);
    var (incarnation, s) :- GetName(s, maxField);
    var (sequence, s) :- GetU64(s);
    var (revision, s) :- GetU64(s);
    var (detail, s) :- GetString(s, 512, maxField);
    if !ValidOptionalName(domain) || !(device == [] || ValidPathName(device))
       || !(port == [] || ValidPathName(port)) || !ValidOptionalName(source)
       || !ValidOptionalName(incarnation) then Refused else
    Got(EventRecord(kind, severity, receivedWall, receivedSteady, observedNs, domain,
                    QueuePath(device, port, queue), source, incarnation, sequence, revision, detail), s)
  }

  function GetEvents(n: nat, s: bytes, maxField: nat): Items<EventRecord>
    decreases n
  {
    if n == 0 then Items(true, [], s)
    else
      match GetEvent(s, maxField)
      case Refused => Items(false, [], s)
      case Got(first, s) =>
        var others := GetEvents(n - 1, s, maxField);
        others.(items := [first] + others.items)
  }

  function GetEventBatch(s: bytes, maxField: nat): Items<EventRecord> {
    match GetCount(s)
    case Refused => Items(false, [], s)
    case Got(n, s) => GetEvents(n, s, maxField)
  }

  function GetTrafficClass(s: bytes, maxField: nat): Read<TrafficClass> {
    var (id, s) :- GetU16(s);
    var (name, s) :- GetString(s, 128, maxField);
    var (dscp, s) :- GetOptionalU16(s);
    var (priority, s) :- GetOptionalU16(s);
    var (schedulingClass, s) :- GetOptionalName(s, maxField);
    if schedulingClass.Some? && !ValidName(schedulingClass.value) then Refused else
    Got(TrafficClass(id, name, dscp, priority, schedulingClass), s)
  }

  function GetTrafficClasses(n: nat, s: bytes, maxField: nat): Items<TrafficClass>
    decreases n
  {
    if n == 0 then Items(true, [], s)
    else
      match GetTrafficClass(s, maxField)
      case Refused => Items(false, [], s)
      case Got(first, s) =>
        var others := GetTrafficClasses(n - 1, s, maxField);
        others.(items := [first] + others.items)
  }

  function GetSchedulingClass(s: bytes, maxField: nat): Read<SchedulingClass> {
    var (id, s) :- GetName(s, maxField);
    var (mode, s) :- GetString(s, 64, maxField);
    if !ValidName(id) then Refused else
    var (weight, s) :- GetOptionalU64(s);
    Got(SchedulingClass(id, mode, weight), s)
  }

  function GetSchedulingClasses(n: nat, s: bytes, maxField: nat): Items<SchedulingClass>
    decreases n
  {
    if n == 0 then Items(true, [], s)
    else
      match GetSchedulingClass(s, maxField)
      case Refused => Items(false, [], s)
      case Got(first, s) =>
        var others := GetSchedulingClasses(n - 1, s, maxField);
        others.(items := [first] + others.items)
  }

  function GetBinding(s: bytes, maxField: nat): Read<Binding> {
    var (device, s) :- GetName(s, maxField);
    var (port, s) :- GetName(s, maxField);
    var (queue, s) :- GetU32(s);
    if !ValidPathName(device) || !ValidPathName(port) then Refused else
    var (trafficClass, s) :- GetOptionalU16(s);
    var (schedulingClass, s) :- GetOptionalName(s, maxField);
    if schedulingClass.Some? && !ValidName(schedulingClass.value) then Refused else
    Got(Binding(QueuePath(device, port, queue), trafficClass, schedulingClass), s)
  }

  function GetBindings(n: nat, s: bytes, maxField: nat): Items<Binding>
    decreases n
  {
    if n == 0 then Items(true, [], s)
    else
      match GetBinding(s, maxField)
      case Refused => Items(false, [], s)
      case Got(first, s) =>
        var others := GetBindings(n - 1, s, maxField);
        others.(items := [first] + others.items)
  }

  /** A metadata table as far as it could be filled in. */
  datatype Filled = Filled(ok: bool, table: Metadata)

  function GetMetadata(s: bytes, table: Metadata, maxField: nat): Filled {
    match GetMetadataIdentity(s, maxField)
    case Refused => Filled(false, table)
    case Got((revision, generation, source, authority), s) =>
      var table := table.(revision := revision, generation := generation);
      if !ValidName(source) then Filled(false, table) else
      GetMetadataTimes(s, table.(source := source, authority := authority), maxField)
  }

  function GetMetadataIdentity(s: bytes, maxField: nat): Read<(u64, u64, Name, u8)> {
    var (revision, s) :- GetU64(s);
    var (generation, s) :- GetU64(s);
    var (source, s) :- GetName(s, maxField);
    var (authority, s) :- GetU8(s);
    Got((revision, generation, source, authority), s)
  }

  function GetMetadataTimes(s: bytes, table: Metadata, maxField: nat): Filled {
    match GetI64(s)
    case Refused => Filled(false, table)
    case Got(wall, s) =>
      var table := table.(receivedWall := wall);
      match GetI64(s)
      case Refused => Filled(false, table)
      case Got(steady, s) => GetMetadataSections(s, table.(receivedSteady := steady), maxField)
  }

  function GetMetadataSections(s: bytes, table: Metadata, maxField: nat): Filled {
    match GetCount(s)
    case Refused => Filled(false, table)
    case Got(n, s) =>
      var traffic := GetTrafficClasses(n, s, maxField);
      var table := table.(trafficClasses := table.trafficClasses + traffic.items);
      if !traffic.ok then Filled(false, table) else
      match GetCount(traffic.rest)
      case Refused => Filled(false, table)
      case Got(n, s) =>
        var scheduling := GetSchedulingClasses(n, s, maxField);
        var table := table.(schedulingClasses := table.schedulingClasses + scheduling.items);
        if !scheduling.ok then Filled(false, table) else
        match GetCount(scheduling.rest)
        case Refused => Filled(false, table)
        case Got(n, s) =>
          var bindings := GetBindings(n, s, maxField);
          Filled(bindings.ok, table.(bindings := table.bindings + bindings.items))
  }

  datatype Session = Session(runtimeId: bytes, policyVersion: u32, policyName: bytes)

  function GetSession(s: bytes, maxField: nat): Read<Session> {
    var (runtimeId, s) :- GetString(s, MAX_RUNTIME_ID_BYTES, maxField);
    var (policyVersion, s) :- GetU32(s);
    var (policyName, s) :- GetString(s, 128, maxField);
    var (_, s) :- GetI64(s);
    var (_, s) :- GetI64(s);
    var (_, s) :- GetU32(s);
    Got(Session(runtimeId, policyVersion, policyName), s)
  }

  // ---- writing ------------------------------------------------------------------

  function PutU8(v: u8, tail: bytes): (r: bytes)
    ensures GetU8(r) == Got(v, tail) && |r| == 1 + |tail|
  {
    [v] + tail
  }

  function PutInteger(v: nat, n: nat, tail: bytes): (r: bytes)
    ensures |r| == n + |tail|
    ensures v < Pow256(n) ==> GetInteger(r, n) == Got(v, tail)
  {
    var image := LittleEndian(v, n);
    assert v < Pow256(n) ==> FromLittleEndian(image) == v by {
      if v < Pow256(n) { LittleEndianInverse(v, n); }
    }
    assert (image + tail)[..n] == image && (image + tail)[n..] == tail;
    image + tail
  }

  function PutU16(v: u16, tail: bytes): (r: bytes)
    ensures GetU16(r) == Got(v, tail) && |r| == 2 + |tail|
  {
    PowerLimits();
    PutInteger(v, 2, tail)
  }

  function PutU32(v: u32, tail: bytes): (r: bytes)
    ensures GetU32(r) == Got(v, tail) && |r| == 4 + |tail|
  {
    PowerLimits();
    PutInteger(v, 4, tail)
  }

  function PutU64(v: u64, tail: bytes): (r: bytes)
    ensures GetU64(r) == Got(v, tail) && |r| == 8 + |tail|
  {
    PowerLimits();
    PutInteger(v, 8, tail)
  }

  function PutI64(v: i64, tail: bytes): (r: bytes)
    ensures GetI64(r) == Got(v, tail) && |r| == 8 + |tail|
  {
    PutU64(ToU64(v), tail)
  }

  /** A size as the cast to 32 bits leaves it. */
  function Cast32(n: nat): u32 {
    n % U32_LIMIT
  }

  function PutString(v: bytes, tail: bytes): (r: bytes)
    ensures |r| == 4 + |v| + |tail|
    ensures |v| < U32_LIMIT ==>
              forall maxLength: nat, maxField: nat :: |v| <= maxLength && |v| <= maxField ==>
                GetString(r, maxLength, maxField) == Got(v, tail)
  {
    assert (v + tail)[..|v|] == v && (v + tail)[|v|..] == tail;
    PutU32(Cast32(|v|), v + tail)
  }

  function PutOptionalU16(v: Option<u16>, tail: bytes): (r: bytes)
    ensures GetOptionalU16(r) == Got(v, tail) && |r| >= 1 + |tail|
  {
    match v
    case None => PutU8(0, tail)
    case Some(x) => PutU8(1, PutU16(x, tail))
  }

  function PutOptionalU64(v: Option<u64>, tail: bytes): (r: bytes)
    ensures GetOptionalU64(r) == Got(v, tail) && |r| >= 1 + |tail|
  {
    match v
    case None => PutU8(0, tail)
    case Some(x) => PutU8(1, PutU64(x, tail))
  }

  function PutOptionalName(v: Option<Name>, tail: bytes): (r: bytes)
    ensures |r| == 1 + |tail| + match v case None => 0 case Some(x) => 4 + |x|
    ensures forall maxField: nat ::
              v.None? || (|v.value| <= MAX_IDENTITY_LENGTH && |v.value| <= maxField) ==>
                GetOptionalName(r, maxField) == Got(v, tail)
  {
    match v
    case None => PutU8(0, tail)
    case Some(x) => PutU8(1, PutString(x, tail))
  }

  /** The set fields from position i on, in ascending order. */
  function FieldList(mask: FieldMask, i: nat): (r: seq<u8>)
    requires i <= FIELD_COUNT
    ensures |r| <= FIELD_COUNT - i
    decreases FIELD_COUNT - i
  {
    if i == FIELD_COUNT then []
    else (if i in mask then [i] else []) + FieldList(mask, i + 1)
  }

  function PutBitmap(mask: FieldMask, tail: bytes): (r: bytes) {
    PutU8(|FieldList(mask, 0)|, FieldList(mask, 0) + tail)
  }

  /** The mask as the number it is. */
  function MaskWord(mask: FieldMask, i: nat): (r: nat)
    requires i <= 64
    ensures r < Pow2(64 - i)
    decreases 64 - i
  {
    if i == 64 then 0 else (if i in mask then 1 else 0) + 2 * MaskWord(mask, i + 1)
  }

  function Pow2(n: nat): nat {
    if n == 0 then 1 else 2 * Pow2(n - 1)
  }

  lemma Pow2Word()
    ensures Pow2(64) == U64_LIMIT
  {
    assert Pow2(4) == 16;
    Pow2Sum(4, 4);
    Pow2Sum(8, 8);
    Pow2Sum(16, 16);
    Pow2Sum(32, 32);
  }

  lemma {:induction false} Pow2Sum(m: nat, n: nat)
    ensures Pow2(m + n) == Pow2(m) * Pow2(n)
  {
    if m > 0 {
      Pow2Sum(m - 1, n);
    }
  }

  function MaskAsU64(mask: FieldMask): u64 {
    Pow2Word();
    MaskWord(mask, 0)
  }

  function PutFieldValues(mask: FieldMask, values: seq<u64>, i: nat, tail: bytes): (r: bytes)
    requires i <= FIELD_COUNT == |values|
    ensures |r| >= |tail|
    decreases FIELD_COUNT - i
  {
    if i == FIELD_COUNT then tail
    else if i in mask then PutU64(values[i], PutFieldValues(mask, values, i + 1, tail))
    else PutFieldValues(mask, values, i + 1, tail)
  }

  predicate Shaped(sample: DurableSample) {
    |sample.values| == FIELD_COUNT
  }

  function PutSample(x: DurableSample, tail: bytes): (r: bytes)
    requires Shaped(x)
  {
    PutI64(x.observedNs, PutString(x.domain, PutI64(x.receivedWall, PutI64(x.receivedSteady,
      PutString(x.source, PutString(x.incarnation, PutU64(x.generation, PutU64(x.sequence,
        PutU8(x.authority, PutU64(MaskAsU64(x.reported), PutBitmap(x.reported,
          PutFieldValues(x.reported, x.values, 0, PutU8(x.state, PutU8(x.freshness,
            PutU8(x.quality, PutI64(x.ageNs, tail))))))))))))))))
  }

  function PutSamples(xs: seq<DurableSample>, tail: bytes): (r: bytes)
    requires forall x :: x in xs ==> Shaped(x)
    ensures |r| >= |xs| + |tail|
  {
    if xs == [] then tail else PutSample(xs[0], PutSamples(xs[1..], tail))
  }

  predicate QueueShaped(q: DurableQueueState) {
    forall x :: x in q.samples ==> Shaped(x)
  }

  function Flag(b: bool): u8 {
    if b then 1 else 0
  }

  function PutQueueHead(q: DurableQueueState, tail: bytes): (r: bytes)
    ensures |r| >= |tail|
  {
    PutString(q.path.device, PutString(q.path.port, PutU32(q.path.queue, PutU8(Flag(q.classesKnown),
      PutOptionalU16(q.trafficClass, PutOptionalName(q.schedulingClass, PutU8(q.origin,
        PutU64(q.metadataRevision, tail))))))))
  }

  function PutQueueRecord(q: DurableQueueState, tail: bytes): (r: bytes)
    requires QueueShaped(q)
    ensures |r| >= |q.samples| + |tail|
  {
    PutQueueHead(q, PutU32(Cast32(|q.samples|), PutSamples(q.samples, tail)))
  }

  function PutIncarnations(xs: seq<Incarnation>, tail: bytes): (r: bytes)
    ensures |r| >= |xs| + |tail|
  {
    if xs == [] then tail
    else PutString(xs[0].token, PutU64(xs[0].ordinal, PutIncarnations(xs[1..], tail)))
  }

  function PutSource(x: SourceRecord, tail: bytes): (r: bytes)
    ensures |r| >= 1 + |x.recent| + |tail|
  {
    PutString(x.id, PutU8(x.authority, PutU8(x.declaredAuthority, PutString(x.incarnation,
      PutU64(x.ordinal, PutU64(x.lastSequence, PutU64(x.generation, PutString(x.clockDomain,
        PutI64(x.firstWall, PutI64(x.firstSteady, PutI64(x.lastWall, PutI64(x.lastSteady,
          PutU64(x.accepted, PutU64(x.fenced, PutU64(x.duplicates, PutU64(x.rejected,
            PutI64(ToI64(x.lastObservedNs), PutU32(Cast32(|x.recent|),
              PutIncarnations(x.recent, tail)))))))))))))))))))
  }

  function PutSources(xs: seq<SourceRecord>, tail: bytes): (r: bytes)
    ensures |r| >= |xs| + |tail|
  {
    if xs == [] then tail else PutSource(xs[0], PutSources(xs[1..], tail))
  }

  function PutSourceRegistry(xs: seq<SourceRecord>, tail: bytes): bytes {
    PutU32(Cast32(|xs|), PutSources(xs, tail))
  }

  function PutEvent(x: EventRecord, tail: bytes): (r: bytes)
    ensures |r| >= 1 + |tail|
  {
    PutU8(x.kind, PutU8(x.severity, PutI64(x.receivedWall, PutI64(x.receivedSteady,
      PutI64(x.observedNs, PutString(x.domain, PutString(x.path.device, PutString(x.path.port,
        PutU32(x.path.queue, PutString(x.source, PutString(x.incarnation, PutU64(x.sequence,
          PutU64(x.revision, PutString(x.detail, tail))))))))))))))
  }

  function PutEvents(xs: seq<EventRecord>, tail: bytes): (r: bytes)
    ensures |r| >= |xs| + |tail|
  {
    if xs == [] then tail else PutEvent(xs[0], PutEvents(xs[1..], tail))
  }

  function PutEventBatch(xs: seq<EventRecord>, tail: bytes): bytes {
    PutU32(Cast32(|xs|), PutEvents(xs, tail))
  }

  function PutTrafficClass(x: TrafficClass, tail: bytes): (r: bytes)
    ensures |r| >= 1 + |tail|
  {
    PutU16(x.id, PutString(x.name, PutOptionalU16(x.dscp, PutOptionalU16(x.priority,
      PutOptionalName(x.schedulingClass, tail)))))
  }

  function PutTrafficClasses(xs: seq<TrafficClass>, tail: bytes): (r: bytes)
    ensures |r| >= |xs| + |tail|
  {
    if xs == [] then tail else PutTrafficClass(xs[0], PutTrafficClasses(xs[1..], tail))
  }

  function PutSchedulingClass(x: SchedulingClass, tail: bytes): (r: bytes)
    ensures |r| >= 1 + |tail|
  {
    PutString(x.id, PutString(x.mode, PutOptionalU64(x.weight, tail)))
  }

  function PutSchedulingClasses(xs: seq<SchedulingClass>, tail: bytes): (r: bytes)
    ensures |r| >= |xs| + |tail|
  {
    if xs == [] then tail else PutSchedulingClass(xs[0], PutSchedulingClasses(xs[1..], tail))
  }

  function PutBinding(x: Binding, tail: bytes): (r: bytes)
    ensures |r| >= 1 + |tail|
  {
    PutString(x.path.device, PutString(x.path.port, PutU32(x.path.queue,
      PutOptionalU16(x.trafficClass, PutOptionalName(x.schedulingClass, tail)))))
  }

  function PutBindings(xs: seq<Binding>, tail: bytes): (r: bytes)
    ensures |r| >= |xs| + |tail|
  {
    if xs == [] then tail else PutBinding(xs[0], PutBindings(xs[1..], tail))
  }

  function PutMetadataSections(m: Metadata, tail: bytes): (r: bytes)
    ensures |r| >= |m.trafficClasses| + |m.schedulingClasses| + |m.bindings| + |tail|
  {
    PutU32(Cast32(|m.trafficClasses|), PutTrafficClasses(m.trafficClasses,
      PutU32(Cast32(|m.schedulingClasses|), PutSchedulingClasses(m.schedulingClasses,
        PutU32(Cast32(|m.bindings|), PutBindings(m.bindings, tail))))))
  }

  function PutMetadataHead(m: Metadata, tail: bytes): bytes {
    PutU64(m.revision, PutU64(m.generation, PutString(m.source, PutU8(m.authority,
      PutI64(m.receivedWall, PutI64(m.receivedSteady, tail))))))
  }

  function PutMetadata(m: Metadata, tail: bytes): bytes {
    PutMetadataHead(m, PutMetadataSections(m, tail))
  }

  function PutSession(x: Snapshot, tail: bytes): bytes {
    PutString(x.runtimeId, PutU32(x.policyVersion, PutString(x.policyName, PutI64(x.createdWall,
      PutI64(x.createdSteady, PutU32(QueueCount(x), tail))))))
  }

  /** The advisory queue count is clamped rather than cast. */
  function QueueCount(x: Snapshot): u32 {
    if |x.queues| > 0xFFFF_FFFF then 0xFFFF_FFFF else |x.queues|
  }
}
