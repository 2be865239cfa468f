/** Records, the segment around them, and the conservative decoder as a function. */
module SegmentLayout {
  import opened Wrappers
  import opened Bytes
  import opened Identity
  import opened SegmentSpec
  import Crc32c

  // ---- records ----------------------------------------------------------------

  datatype Record = Record(kind: u8, value: bytes)

  /** The eight octets between a record's checksum and its value. */
  function PutPrefix(kind: u8, flags: u8, length: u32, tail: bytes): (r: bytes)
    ensures |r| == 8 + |tail|
  {
    PutU8(kind, PutU8(flags, PutU16(0, PutU32(length, tail))))
  }

  function RecordChecksum(kind: u8, flags: u8, value: bytes): u32 {
    Crc32c.Word(Crc32c.Checksum(PutPrefix(kind, flags, Cast32(|value|), []) + value))
  }

  function PutRecord(r: Record, tail: bytes): (s: bytes)
    ensures |s| == RecordSize(r) + |tail|
  {
    PutHead(r, r.value + tail)
  }

  function RecordSize(r: Record): nat {
    RECORD_HEADER_SIZE + |r.value|
  }

  function PutHead(r: Record, tail: bytes): (s: bytes)
    ensures |s| == RECORD_HEADER_SIZE + |tail|
  {
    PutU32(RecordChecksum(r.kind, 0, r.value), PutPrefix(r.kind, 0, Cast32(|r.value|), tail))
  }

  function Payload(rs: seq<Record>, tail: bytes): (s: bytes)
    ensures |s| == PayloadSize(rs) + |tail|
  {
    if rs == [] then tail else PutRecord(rs[0], Payload(rs[1..], tail))
  }

  function PayloadSize(rs: seq<Record>): nat {
    if rs == [] then 0 else RecordSize(rs[0]) + PayloadSize(rs[1..])
  }

  // ---- a snapshot as records ------------------------------------------------------

  predicate SnapshotShaped(x: Snapshot) {
    forall q :: q in x.queues ==> QueueShaped(q)
  }

  function QueueRecords(qs: seq<DurableQueueState>): (r: seq<Record>)
    requires forall q :: q in qs ==> QueueShaped(q)
    ensures |r| == |qs|
    ensures forall i :: 0 <= i < |qs| ==> r[i] == Record(QUEUE_SNAPSHOT, PutQueueRecord(qs[i], []))
  {
    seq(|qs|, i requires 0 <= i < |qs| => Record(QUEUE_SNAPSHOT, PutQueueRecord(qs[i], [])))
  }

  function SourceRecords(x: Snapshot): seq<Record> {
    if x.sources == [] then [] else [Record(SOURCE_REGISTRY, PutSourceRegistry(x.sources, []))]
  }

  function EventRecords(x: Snapshot): seq<Record> {
    if x.events == [] then [] else [Record(EVENT_BATCH, PutEventBatch(x.events, []))]
  }

  function MetadataRecords(x: Snapshot): seq<Record> {
    if x.hasMetadata then [Record(METADATA_TABLE, PutMetadata(x.metadata, []))] else []
  }

  function SnapshotRecords(x: Snapshot): seq<Record>
    requires SnapshotShaped(x)
  {
    [Record(SESSION_HEADER, PutSession(x, []))] + QueueRecords(x.queues) + SourceRecords(x)
    + EventRecords(x) + MetadataRecords(x)
  }

  // ---- the header -----------------------------------------------------------------

  datatype Header = Header(
    formatVersion: u32, headerSize: u32, policyVersion: u32, runtimeIdLength: u32, flags: u32,
    createdWall: i64, createdSteady: i64, recordCount: u64, payloadBytes: u64, payloadCrc: u32,
    major: u32, minor: u32, patch: u32)

  function PutHeaderFront(h: Header, tail: bytes): (r: bytes)
    ensures |r| == 16 + |tail|
  {
    MAGIC + PutU32(h.formatVersion, PutU32(h.headerSize, tail))
  }

  function PutHeaderBack(h: Header, tail: bytes): (r: bytes)
    ensures |r| == 60 + |tail|
  {
    PutU32(h.policyVersion, PutU32(h.runtimeIdLength, PutU32(h.flags, PutI64(h.createdWall,
      PutI64(h.createdSteady, PutU64(h.recordCount, PutU64(h.payloadBytes, PutU32(h.payloadCrc,
        PutU32(h.major, PutU32(h.minor, PutU32(h.patch, tail)))))))))))
  }

  /** The header with a given checksum field. */
  function HeaderImage(h: Header, crc: u32): (r: bytes)
    ensures |r| == HEADER_SIZE
  {
    PutHeaderFront(h, PutU32(crc, PutHeaderBack(h, [])))
  }

  function HeaderChecksum(h: Header): u32 {
    Crc32c.Word(Crc32c.Checksum(HeaderImage(h, 0)))
  }

  function SealedHeader(h: Header): (r: bytes)
    ensures |r| == HEADER_SIZE
  {
    HeaderImage(h, HeaderChecksum(h))
  }

  /** The header fields and the stored checksum, read from after the magic. */
  function GetHeader(s: bytes): Read<(Header, u32)> {
    var (formatVersion, s) :- GetU32(s);
    var (headerSize, s) :- GetU32(s);
    var (crc, s) :- GetU32(s);
    var (h, s) :- GetHeaderBack(formatVersion, headerSize, s);
    Got((h, crc), s)
  }

  function GetHeaderBack(formatVersion: u32, headerSize: u32, s: bytes): Read<Header> {
    var (policyVersion, s) :- GetU32(s);
    var (runtimeIdLength, s) :- GetU32(s);
    var (flags, s) :- GetU32(s);
    var (createdWall, s) :- GetI64(s);
    var (createdSteady, s) :- GetI64(s);
    var (recordCount, s) :- GetU64(s);
    var (payloadBytes, s) :- GetU64(s);
    var (payloadCrc, s) :- GetU32(s);
    var (major, s) :- GetU32(s);
    var (minor, s) :- GetU32(s);
    var (patch, s) :- GetU32(s);
    Got(Header(formatVersion, headerSize, policyVersion, runtimeIdLength, flags, createdWall,
               createdSteady, recordCount, payloadBytes, payloadCrc, major, minor, patch), s)
  }

  function SnapshotHeader(x: Snapshot): Header
    requires SnapshotShaped(x) && |SnapshotRecords(x)| < U64_LIMIT
    requires |Payload(SnapshotRecords(x), [])| < U64_LIMIT && |x.runtimeId| < U32_LIMIT
  {
    var payload := Payload(SnapshotRecords(x), []);
    Header(FORMAT_VERSION, HEADER_SIZE, x.policyVersion, |x.runtimeId|, 0, x.createdWall,
           x.createdSteady, |SnapshotRecords(x)|, |payload|, Crc32c.Word(Crc32c.Checksum(payload)),
           VERSION_MAJOR, VERSION_MINOR, VERSION_PATCH)
  }

  /** A segment: sealed header, runtime identifier, payload. */
  function Segment(x: Snapshot): bytes
    requires SnapshotShaped(x) && |SnapshotRecords(x)| < U64_LIMIT
    requires |Payload(SnapshotRecords(x), [])| < U64_LIMIT && |x.runtimeId| < U32_LIMIT
  {
    SealedHeader(SnapshotHeader(x)) + x.runtimeId + Payload(SnapshotRecords(x), [])
  }

  predicate RecordWithin(r: Record, limits: PersistenceLimits) {
    |r.value| <= limits.maxRecordBytes && |r.value| < U32_LIMIT
  }

  /** What the limits admit, record by record and in total. */
  predicate Fits(x: Snapshot, limits: PersistenceLimits)
    requires SnapshotShaped(x)
  {
    && limits.Valid()
    && |x.runtimeId| <= MAX_RUNTIME_ID_BYTES
    && (forall r :: r in SnapshotRecords(x) ==> RecordWithin(r, limits))
    && (x.hasMetadata ==> |PutMetadata(x.metadata, [])| <= limits.maxMetadataBytes)
    && |SnapshotRecords(x)| <= limits.maxSegmentRecords
    && |Payload(SnapshotRecords(x), [])| <= limits.maxSegmentBytes
  }

  // ---- decoding ---------------------------------------------------------------------

  datatype Report = Report(
    magicValid: bool, headerCrcValid: bool, payloadCrcValid: bool, versionSupported: bool,
    truncated: bool, integrityFailed: bool, recordsDeclared: u64, recordsParsed: nat,
    recordsRejected: nat, bytesConsumed: nat, bytesDeclared: u64, formatVersion: u32,
    createdWall: i64)
  {
    predicate Clean() {
      magicValid && headerCrcValid && payloadCrcValid && versionSupported && !truncated && !integrityFailed
    }
  }

  const BLANK_REPORT := Report(false, false, false, false, false, false, 0, 0, 0, 0, 0, 0, 0)

  datatype Decoded = Decoded(status: Status, out: Snapshot, report: Report)

  datatype Applied = Applied(ok: bool, out: Snapshot)

  /** What one record's value does to the snapshot, readable or not. */
  function ApplyRecord(out: Snapshot, kind: u8, value: bytes, limits: PersistenceLimits): Applied {
    if kind == SESSION_HEADER then
      match GetSession(value, limits.maxRecordBytes)
      case Refused => Applied(false, out)
      case Got(session, _) =>
        Applied(true, out.(runtimeId := if session.runtimeId != [] then session.runtimeId else out.runtimeId,
                           policyVersion := session.policyVersion, policyName := session.policyName))
    else if kind == QUEUE_SNAPSHOT then
      match GetQueueRecord(value, limits)
      case Refused => Applied(false, out)
      case Got(queue, _) => Applied(true, out.(queues := out.queues + [queue]))
    else if kind == EVENT_BATCH then
      var batch := GetEventBatch(value, limits.maxRecordBytes);
      Applied(batch.ok, out.(events := out.events + batch.items))
    else if kind == SOURCE_REGISTRY then
      var registry := GetSourceRegistry(value, limits.maxRecordBytes);
      Applied(registry.ok, out.(sources := out.sources + registry.items))
    else if kind == METADATA_TABLE then
      var filled := GetMetadata(value, out.metadata, limits.maxRecordBytes);
      Applied(filled.ok, out.(metadata := filled.table, hasMetadata := out.hasMetadata || filled.ok))
    else Applied(false, out)
  }

  datatype Head = Head(crc: u32, kind: u8, flags: u8, length: u32)

  function GetHead(s: bytes): Read<Head> {
    var (crc, s) :- GetU32(s);
    var (kind, s) :- GetU8(s);
    var (flags, s) :- GetU8(s);
    var (_, s) :- GetU16(s);
    var (length, s) :- GetU32(s);
    Got(Head(crc, kind, flags, length), s)
  }

  /** Where the record loop stands. */
  datatype Progress = Progress(out: Snapshot, report: Report, offset: nat)

  function Damaged(report: Report): Report {
    report.(integrityFailed := true)
  }

  function Rejected(report: Report): Report {
    report.(integrityFailed := true, recordsRejected := report.recordsRejected + 1)
  }

  /** One turn of the record loop, and whether the loop goes on. */
  function ReadRecord(payload: bytes, p: Progress, limits: PersistenceLimits): (r: (Progress, bool))
    requires p.offset + RECORD_HEADER_SIZE <= |payload|
    ensures r.1 ==> p.offset < r.0.offset <= |payload|
  {
    match GetHead(payload[p.offset..])
    case Refused => (p.(report := Damaged(p.report).(truncated := true)), false)
    case Got(head, _) =>
      if head.length > limits.maxRecordBytes then (p.(report := Damaged(p.report)), false)
      else if p.offset + RECORD_HEADER_SIZE + head.length > |payload| then
        (p.(report := Damaged(p.report).(truncated := true)), false)
      else
        var begin := p.offset + RECORD_HEADER_SIZE;
        var value := payload[begin..begin + head.length];
        if RecordChecksum(head.kind, head.flags, value) != head.crc then
          (p.(report := Rejected(p.report)), false)
        else
          var applied := ApplyRecord(p.out, head.kind, value, limits);
          if !applied.ok then (Progress(applied.out, Rejected(p.report), p.offset), false)
          else (Progress(applied.out, p.report.(recordsParsed := p.report.recordsParsed + 1),
                         begin + head.length), true)
  }

  function ReadRecords(payload: bytes, p: Progress, limits: PersistenceLimits): (r: Progress)
    requires p.offset <= |payload|
    ensures r.offset <= |payload|
    decreases |payload| - p.offset
  {
    if p.offset + RECORD_HEADER_SIZE > |payload| then p
    else
      var (next, more) := ReadRecord(payload, p, limits);
      if more then ReadRecords(payload, next, limits) else next
  }

  /** The verdict once the loop has stopped. */
  function Conclude(p: Progress, usable: nat, recordCount: u64): Report {
    var report := p.report.(bytesConsumed := p.offset);
    var report := if p.offset != usable then Damaged(report) else report;
    if report.recordsParsed < recordCount then Damaged(report) else report
  }

  function ZeroedHeader(s: bytes): bytes
    requires |s| >= HEADER_SIZE
  {
    s[..16] + [0, 0, 0, 0] + s[20..HEADER_SIZE]
  }

  /** What is known of a payload before its records are read. */
  function PayloadReport(payload: bytes, h: Header, report: Report): Report {
    var report := if |payload| < h.payloadBytes then Damaged(report).(truncated := true) else report;
    if Crc32c.Word(Crc32c.Checksum(payload)) != h.payloadCrc then Damaged(report)
    else report.(payloadCrcValid := true)
  }

  /** The payload that is there, never more than the header declares. */
  function UsablePayload(s: bytes, h: Header): bytes
    requires |s| >= HEADER_SIZE + h.runtimeIdLength
  {
    var start := HEADER_SIZE + h.runtimeIdLength;
    var available := |s| - start;
    s[start..start + if h.payloadBytes > available then available else h.payloadBytes]
  }

  function InitialSnapshot(s: bytes, h: Header): Snapshot
    requires |s| >= HEADER_SIZE + h.runtimeIdLength
  {
    DEFAULT_SNAPSHOT.(runtimeId := s[HEADER_SIZE..HEADER_SIZE + h.runtimeIdLength],
                      createdWall := h.createdWall, createdSteady := h.createdSteady,
                      policyVersion := h.policyVersion)
  }

  function DecodePayload(s: bytes, h: Header, report: Report, limits: PersistenceLimits): Decoded
    requires |s| >= HEADER_SIZE + h.runtimeIdLength
  {
    var payload := UsablePayload(s, h);
    var p := ReadRecords(payload, Progress(InitialSnapshot(s, h), PayloadReport(payload, h, report), 0), limits);
    Decoded(Ok, p.out, Conclude(p, |payload|, h.recordCount))
  }

  function Refuse(code: ErrorCode, report: Report): Decoded {
    Decoded(Failure(code), DEFAULT_SNAPSHOT, report)
  }

  function DecodeSegment(s: bytes, limits: PersistenceLimits): Decoded {
    if !limits.Valid() then Refuse(InvalidArgument, BLANK_REPORT)
    else if |s| < HEADER_SIZE then Refuse(IntegrityFailure, BLANK_REPORT)
    else if s[..8] != MAGIC then Refuse(IntegrityFailure, BLANK_REPORT)
    else
      var report := BLANK_REPORT.(magicValid := true);
      match GetHeader(s[8..])
      case Refused => Refuse(IntegrityFailure, report)
      case Got((h, crc), _) =>
        var report := report.(formatVersion := h.formatVersion, createdWall := h.createdWall,
                              recordsDeclared := h.recordCount, bytesDeclared := h.payloadBytes);
        if h.headerSize != HEADER_SIZE then Refuse(VersionMismatch, report)
        else if Crc32c.Word(Crc32c.Checksum(ZeroedHeader(s))) != crc then Refuse(IntegrityFailure, report)
        else
          var report := report.(headerCrcValid := true);
          if h.formatVersion != FORMAT_VERSION then Refuse(VersionMismatch, report)
          else
            var report := report.(versionSupported := true);
            if h.runtimeIdLength > MAX_RUNTIME_ID_BYTES then Refuse(IntegrityFailure, report)
            else if HEADER_SIZE + h.runtimeIdLength > |s| then
              Decoded(Ok, DEFAULT_SNAPSHOT, Damaged(report).(truncated := true))
            else DecodePayload(s, h, report, limits)
  }
}
