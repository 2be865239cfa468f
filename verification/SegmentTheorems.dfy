/** Whole segments: decoding an intact one, a cut one, and a damaged one. */
module SegmentTheorems {
  import opened Wrappers
  import opened Bytes
  import opened Identity
  import opened SegmentSpec
  import opened SegmentLayout
  import opened SegmentProofs
  import Crc32c

  /** A snapshot in normal form that the encoder accepts. */
  ghost predicate Writable(x: Snapshot, limits: PersistenceLimits) {
    SnapshotShaped(x) && Normal(x) && Fits(x, limits)
  }

  /** The reader asks for more: no queue may have more samples than a segment may have records. */
  ghost predicate Restorable(x: Snapshot, limits: PersistenceLimits) {
    Writable(x, limits) && SamplesReadable(x, limits)
  }

  function SourceSlots(x: Snapshot): nat { if x.sources == [] then 0 else 1 }

  function EventSlots(x: Snapshot): nat { if x.events == [] then 0 else 1 }

  /** The parts of x that have been read: the session, q queues, and whole sections. */
  function Assemble(x: Snapshot, session: bool, q: nat, sources: bool, events: bool, metadata: bool): Snapshot
    requires q <= |x.queues|
  {
    Snapshot(x.runtimeId, x.createdWall, x.createdSteady, x.policyVersion,
             if session then x.policyName else [],
             x.queues[..q],
             if events then x.events else [],
             if sources then x.sources else [],
             if metadata then x.metadata else DEFAULT_METADATA,
             metadata)
  }

  /** What the first k records of a segment say. */
  function Recovered(x: Snapshot, k: nat): Snapshot {
    var sources := 1 + |x.queues|;
    var events := sources + SourceSlots(x);
    var metadata := events + EventSlots(x);
    Assemble(x, k >= 1, if k == 0 then 0 else if k <= |x.queues| then k - 1 else |x.queues|,
             k > sources, k > events, x.hasMetadata && k > metadata)
  }

  lemma RecoveredAll(x: Snapshot)
    requires SnapshotShaped(x) && Normal(x)
    ensures Recovered(x, |SnapshotRecords(x)|) == x
  {
    hide SnapshotShaped, NormalQueue, NormalSource, NormalEvent, NormalMetadata, SnapshotRecords;
    RecordCount(x);
    assert x.queues[..|x.queues|] == x.queues;
  }

  // ---- one record at a time ----------------------------------------------------------

  /** Every record of an accepted snapshot is within the reader's limits. */
  lemma RecordFits(x: Snapshot, k: nat, limits: PersistenceLimits)
    requires SnapshotShaped(x) && Fits(x, limits) && k < |SnapshotRecords(x)|
    ensures |SnapshotRecords(x)[k].value| <= limits.maxRecordBytes
    ensures |SnapshotRecords(x)[k].value| < U32_LIMIT
  {
    hide SnapshotRecords;
    assert SnapshotRecords(x)[k] in SnapshotRecords(x);
  }

  /** Which record stands where. */
  lemma RecordAt(x: Snapshot, k: nat)
    requires SnapshotShaped(x) && k < |SnapshotRecords(x)|
    ensures var queues := 1 + |x.queues|;
            var sources := queues + SourceSlots(x);
            var events := sources + EventSlots(x);
            var r := SnapshotRecords(x)[k];
            && (k == 0 ==> r == Record(SESSION_HEADER, PutSession(x, [])))
            && (1 <= k < queues ==> r == Record(QUEUE_SNAPSHOT, PutQueueRecord(x.queues[k - 1], [])))
            && (queues <= k < sources ==> x.sources != [] && r == Record(SOURCE_REGISTRY, PutSourceRegistry(x.sources, [])))
            && (sources <= k < events ==> x.events != [] && r == Record(EVENT_BATCH, PutEventBatch(x.events, [])))
            && (events <= k ==> x.hasMetadata && r == Record(METADATA_TABLE, PutMetadata(x.metadata, [])))
  {
    hide PutSession, PutQueueRecord, PutSourceRegistry, PutEventBatch, PutMetadata;
  }

  lemma ApplySession(x: Snapshot, limits: PersistenceLimits)
    requires Writable(x, limits)
    ensures ApplyRecord(Recovered(x, 0), SESSION_HEADER, PutSession(x, []), limits)
         == Applied(true, Recovered(x, 1))
  {
    hide PutSession, GetSession, SnapshotRecords, NormalQueue, NormalSource, NormalEvent, NormalMetadata;
    RecordCount(x);
    RecordAt(x, 0);
    RecordFits(x, 0, limits);
    SessionRoundTrip(x, limits.maxRecordBytes);
    assert x.queues[..0] == [];
  }

  lemma QueuesSoFar(x: Snapshot, k: nat)
    requires k < |x.queues|
    ensures Recovered(x, k + 2) == Recovered(x, k + 1).(queues := Recovered(x, k + 1).queues + [x.queues[k]])
  {
    assert x.queues[..k] + [x.queues[k]] == x.queues[..k + 1];
  }

  lemma QueueFacts(x: Snapshot, k: nat, limits: PersistenceLimits)
    requires Writable(x, limits) && k < |x.queues| && |x.queues[k].samples| <= limits.maxSegmentRecords
    ensures GetQueueRecord(PutQueueRecord(x.queues[k], []), limits) == Got(x.queues[k], [])
  {
    hide PutQueueRecord, GetQueueRecord, SnapshotRecords, NormalQueue, NormalSource, NormalEvent,
      NormalMetadata, QueueShaped;
    assert x.queues[k] in x.queues;
    RecordCount(x);
    RecordAt(x, k + 1);
    RecordFits(x, k + 1, limits);
    QueueRoundTrip(x.queues[k], limits);
  }

  lemma ApplyQueue(x: Snapshot, k: nat, limits: PersistenceLimits)
    requires SnapshotShaped(x) && Writable(x, limits) && k < |x.queues|
    requires |x.queues[k].samples| <= limits.maxSegmentRecords
    ensures ApplyRecord(Recovered(x, k + 1), QUEUE_SNAPSHOT, PutQueueRecord(x.queues[k], []), limits)
         == Applied(true, Recovered(x, k + 2))
  {
    hide PutQueueRecord, GetQueueRecord, QueueShaped, Recovered, Writable;
    QueueFacts(x, k, limits);
    QueuesSoFar(x, k);
  }

  lemma SourcesSoFar(x: Snapshot, k: nat)
    requires x.sources != [] && k == 1 + |x.queues|
    ensures Recovered(x, k + 1) == Recovered(x, k).(sources := Recovered(x, k).sources + x.sources)
  {
    assert [] + x.sources == x.sources;
  }

  lemma SourcesFacts(x: Snapshot, limits: PersistenceLimits)
    requires Restorable(x, limits) && x.sources != []
    ensures GetSourceRegistry(PutSourceRegistry(x.sources, []), limits.maxRecordBytes) == Items(true, x.sources, [])
  {
    hide PutSourceRegistry, GetSourceRegistry, SnapshotRecords, NormalQueue, NormalSource, NormalEvent,
      NormalMetadata;
    RecordCount(x);
    RecordAt(x, 1 + |x.queues|);
    RecordFits(x, 1 + |x.queues|, limits);
    SourceRegistryRoundTrip(x.sources, limits.maxRecordBytes);
  }

  lemma ApplySources(x: Snapshot, limits: PersistenceLimits)
    requires Restorable(x, limits) && x.sources != []
    ensures ApplyRecord(Recovered(x, 1 + |x.queues|), SOURCE_REGISTRY, PutSourceRegistry(x.sources, []), limits)
         == Applied(true, Recovered(x, 2 + |x.queues|))
  {
    hide PutSourceRegistry, GetSourceRegistry, Recovered, Restorable;
    SourcesFacts(x, limits);
    SourcesSoFar(x, 1 + |x.queues|);
  }

  lemma RecordCount(x: Snapshot)
    requires SnapshotShaped(x)
    ensures |SnapshotRecords(x)| == 1 + |x.queues| + SourceSlots(x) + EventSlots(x) + if x.hasMetadata then 1 else 0
  {
    hide PutSession, PutQueueRecord, PutSourceRegistry, PutEventBatch, PutMetadata;
  }

  lemma EventsSoFar(x: Snapshot, k: nat)
    requires x.events != [] && k == 1 + |x.queues| + SourceSlots(x)
    ensures Recovered(x, k + 1) == Recovered(x, k).(events := Recovered(x, k).events + x.events)
  {
    assert [] + x.events == x.events;
  }

  lemma EventsFacts(x: Snapshot, limits: PersistenceLimits)
    requires Restorable(x, limits) && x.events != []
    ensures GetEventBatch(PutEventBatch(x.events, []), limits.maxRecordBytes) == Items(true, x.events, [])
  {
    hide PutEventBatch, GetEventBatch, SnapshotRecords, NormalQueue, NormalSource, NormalEvent,
      NormalMetadata;
    var k := 1 + |x.queues| + SourceSlots(x);
    RecordCount(x);
    RecordAt(x, k);
    RecordFits(x, k, limits);
    EventBatchRoundTrip(x.events, limits.maxRecordBytes);
  }

  lemma ApplyEvents(x: Snapshot, k: nat, limits: PersistenceLimits)
    requires Restorable(x, limits) && x.events != [] && k == 1 + |x.queues| + SourceSlots(x)
    ensures ApplyRecord(Recovered(x, k), EVENT_BATCH, PutEventBatch(x.events, []), limits)
         == Applied(true, Recovered(x, k + 1))
  {
    hide PutEventBatch, GetEventBatch, Recovered, Restorable;
    EventsFacts(x, limits);
    EventsSoFar(x, k);
  }

  lemma MetadataSoFar(x: Snapshot, k: nat)
    requires x.hasMetadata && k == 1 + |x.queues| + SourceSlots(x) + EventSlots(x)
    ensures Recovered(x, k).metadata == DEFAULT_METADATA
    ensures Recovered(x, k + 1) == Recovered(x, k).(metadata := x.metadata, hasMetadata := true)
  {}

  lemma MetadataFacts(x: Snapshot, limits: PersistenceLimits)
    requires Restorable(x, limits) && x.hasMetadata
    ensures GetMetadata(PutMetadata(x.metadata, []), DEFAULT_METADATA, limits.maxRecordBytes)
         == Filled(true, x.metadata)
  {
    hide PutMetadata, GetMetadata, SnapshotRecords, NormalQueue, NormalSource, NormalEvent, NormalMetadata;
    var k := 1 + |x.queues| + SourceSlots(x) + EventSlots(x);
    RecordCount(x);
    RecordAt(x, k);
    RecordFits(x, k, limits);
    MetadataRoundTrip(x.metadata, limits.maxRecordBytes);
  }

  lemma ApplyMetadata(x: Snapshot, k: nat, limits: PersistenceLimits)
    requires Restorable(x, limits) && x.hasMetadata
    requires k == 1 + |x.queues| + SourceSlots(x) + EventSlots(x)
    ensures ApplyRecord(Recovered(x, k), METADATA_TABLE, PutMetadata(x.metadata, []), limits)
         == Applied(true, Recovered(x, k + 1))
  {
    hide PutMetadata, GetMetadata, Recovered, Restorable;
    MetadataFacts(x, limits);
    MetadataSoFar(x, k);
  }

  lemma RestorableIsWritable(x: Snapshot, limits: PersistenceLimits)
    requires Restorable(x, limits)
    ensures Writable(x, limits)
  {}

  lemma RestorableQueue(x: Snapshot, k: nat, limits: PersistenceLimits)
    requires Restorable(x, limits) && k < |x.queues|
    ensures Writable(x, limits) && |x.queues[k].samples| <= limits.maxSegmentRecords
  {
    hide SnapshotShaped, Normal, Fits;
    assert x.queues[k] in x.queues;
  }

  /** Applying record k to what came before it gives what the first k + 1 records say. */
  lemma ApplyNext(x: Snapshot, k: nat, limits: PersistenceLimits)
    requires SnapshotShaped(x) && Restorable(x, limits) && k < |SnapshotRecords(x)|
    ensures var r := SnapshotRecords(x)[k];
            ApplyRecord(Recovered(x, k), r.kind, r.value, limits) == Applied(true, Recovered(x, k + 1))
  {
    hide ApplyRecord, Recovered, PutSession, PutQueueRecord, PutSourceRegistry, PutEventBatch,
      PutMetadata, SnapshotRecords, SnapshotShaped, Restorable;
    RecordAt(x, k);
    RecordCount(x);
    if k == 0 {
      RestorableIsWritable(x, limits);
      ApplySession(x, limits);
    } else if k <= |x.queues| {
      RestorableQueue(x, k - 1, limits);
      ApplyQueue(x, k - 1, limits);
    } else if k < 1 + |x.queues| + SourceSlots(x) {
      ApplySources(x, limits);
    } else if k < 1 + |x.queues| + SourceSlots(x) + EventSlots(x) {
      ApplyEvents(x, k, limits);
    } else {
      ApplyMetadata(x, k, limits);
    }
  }

  // ---- the record loop over a cut payload -----------------------------------------------

  lemma {:induction false} PayloadFrom(rs: seq<Record>, k: nat)
    requires k <= |rs|
    ensures PayloadSize(rs[..k]) <= |Payload(rs, [])|
    ensures Payload(rs, [])[PayloadSize(rs[..k])..] == Payload(rs[k..], [])
  {
    hide PutHead;
    if k == 0 {
      assert rs[0..] == rs;
    } else {
      var rest := Payload(rs[1..], []);
      PayloadFrom(rs[1..], k - 1);
      assert rs[..k][0] == rs[0] && rs[..k][1..] == rs[1..][..k - 1];
      assert rs[1..][k - 1..] == rs[k..];
      RecordThen(rs[0], rest);
      assert PutRecord(rs[0], rest)[RecordSize(rs[0])..][PayloadSize(rs[1..][..k - 1])..]
          == PutRecord(rs[0], rest)[PayloadSize(rs[..k])..];
    }
  }

  lemma RecordThen(r: Record, tail: bytes)
    ensures PutRecord(r, tail)[RecordSize(r)..] == tail
  {
    HeadThen(r, r.value + tail);
    assert PutRecord(r, tail)[RECORD_HEADER_SIZE..][|r.value|..] == PutRecord(r, tail)[RecordSize(r)..];
  }

  lemma HeadThen(r: Record, tail: bytes)
    ensures PutHead(r, tail)[RECORD_HEADER_SIZE..] == tail
    ensures PutHead(r, tail)[..RECORD_HEADER_SIZE] == PutHead(r, [])
  {
    hide RecordChecksum;
    PrefixThen(r.kind, 0, Cast32(|r.value|), tail);
    var crc := LittleEndian(RecordChecksum(r.kind, 0, r.value), 4);
    var prefix := PutPrefix(r.kind, 0, Cast32(|r.value|), []);
    assert PutHead(r, tail) == crc + (prefix + tail);
    assert PutHead(r, []) == crc + prefix;
    assert crc + (prefix + tail) == (crc + prefix) + tail;
  }

  lemma PrefixThen(kind: u8, flags: u8, length: u32, tail: bytes)
    ensures PutPrefix(kind, flags, length, tail) == PutPrefix(kind, flags, length, []) + tail
  {
    var l := LittleEndian(length, 4);
    var z := LittleEndian(0, 2);
    assert PutPrefix(kind, flags, length, tail) == [kind] + ([flags] + (z + (l + tail)));
    assert PutPrefix(kind, flags, length, []) == [kind] + ([flags] + (z + l));
  }

  /** Cutting after the header of a record leaves that header intact. */
  lemma HeadOfCut(r: Record, tail: bytes, m: nat)
    requires RECORD_HEADER_SIZE <= m <= RECORD_HEADER_SIZE + |tail|
    ensures PutHead(r, tail)[..m] == PutHead(r, tail[..m - RECORD_HEADER_SIZE])
  {
    hide PutHead;
    HeadThen(r, tail);
    HeadThen(r, tail[..m - RECORD_HEADER_SIZE]);
    var s := PutHead(r, tail);
    assert s == s[..RECORD_HEADER_SIZE] + s[RECORD_HEADER_SIZE..];
    var t := PutHead(r, tail[..m - RECORD_HEADER_SIZE]);
    assert t == t[..RECORD_HEADER_SIZE] + t[RECORD_HEADER_SIZE..];
  }

  lemma HeadRoundTrip(r: Record, tail: bytes)
    requires |r.value| < U32_LIMIT
    ensures GetHead(PutHead(r, tail)) == Got(Head(RecordChecksum(r.kind, 0, r.value), r.kind, 0, |r.value|), tail)
  {
    hide RecordChecksum, PutU8, PutU16, PutU32, GetU8, GetU16, GetU32;
  }

  /** How many whole records fit into u octets. */
  function FitCount(rs: seq<Record>, u: nat): (n: nat)
    ensures n <= |rs|
  {
    if rs == [] || u < RecordSize(rs[0]) then 0 else 1 + FitCount(rs[1..], u - RecordSize(rs[0]))
  }

  /** What the loop sees at record k of a payload cut after u octets. */
  lemma CutView(rs: seq<Record>, k: nat, u: nat)
    requires k < |rs| && u <= |Payload(rs, [])|
    requires PayloadSize(rs[..k]) + RECORD_HEADER_SIZE <= u && |rs[k].value| < U32_LIMIT
    ensures var view := Payload(rs, [])[..u][PayloadSize(rs[..k])..];
            var rest := rs[k].value + Payload(rs[k + 1..], []);
            var m := u - PayloadSize(rs[..k]) - RECORD_HEADER_SIZE;
            m <= |rest| && view == PutHead(rs[k], rest[..m])
  {
    hide PutHead;
    var offset := PayloadSize(rs[..k]);
    var p := Payload(rs, []);
    PayloadFrom(rs, k);
    assert rs[k..][0] == rs[k] && rs[k..][1..] == rs[k + 1..];
    assert p[..u][offset..] == p[offset..][..u - offset];
    HeadOfCut(rs[k], rs[k].value + Payload(rs[k + 1..], []), u - offset);
  }

  lemma WholeRecordStep(x: Snapshot, limits: PersistenceLimits, u: nat, k: nat, report: Report)
    requires Restorable(x, limits) && k < |SnapshotRecords(x)|
    requires u <= |Payload(SnapshotRecords(x), [])|
    requires PayloadSize(SnapshotRecords(x)[..k]) + RecordSize(SnapshotRecords(x)[k]) <= u
    ensures (var rs := SnapshotRecords(x); var offset := PayloadSize(rs[..k]);
             ReadRecord(Payload(rs, [])[..u], Progress(Recovered(x, k), report, offset), limits)
             == (Progress(Recovered(x, k + 1), report.(recordsParsed := report.recordsParsed + 1),
                          offset + RecordSize(rs[k])), true))
  {
    hide PutHead, GetHead, RecordChecksum, ApplyRecord, SnapshotRecords, Payload, Recovered, Normal, SamplesReadable;
    var rs := SnapshotRecords(x);
    var offset := PayloadSize(rs[..k]);
    assert rs[k] in rs;
    CutView(rs, k, u);
    var cut := Payload(rs, [])[..u];
    var rest := (rs[k].value + Payload(rs[k + 1..], []))[..u - offset - RECORD_HEADER_SIZE];
    HeadRoundTrip(rs[k], rest);
    HeadThen(rs[k], rest);
    var begin := offset + RECORD_HEADER_SIZE;
    assert cut[begin..begin + |rs[k].value|] == cut[offset..][RECORD_HEADER_SIZE..][..|rs[k].value|];
    assert rest[..|rs[k].value|] == rs[k].value;
    ApplyNext(x, k, limits);
  }

  lemma CutRecordStep(x: Snapshot, limits: PersistenceLimits, u: nat, k: nat, p: Progress)
    requires Restorable(x, limits) && k < |SnapshotRecords(x)|
    requires u <= |Payload(SnapshotRecords(x), [])|
    requires p.offset == PayloadSize(SnapshotRecords(x)[..k])
    requires p.offset + RECORD_HEADER_SIZE <= u < p.offset + RecordSize(SnapshotRecords(x)[k])
    ensures ReadRecord(Payload(SnapshotRecords(x), [])[..u], p, limits)
         == (p.(report := Damaged(p.report).(truncated := true)), false)
  {
    hide PutHead, GetHead, RecordChecksum, ApplyRecord, SnapshotRecords, Payload, Normal, SamplesReadable;
    var rs := SnapshotRecords(x);
    assert rs[k] in rs;
    CutView(rs, k, u);
    HeadRoundTrip(rs[k], (rs[k].value + Payload(rs[k + 1..], []))[..u - p.offset - RECORD_HEADER_SIZE]);
  }

  lemma {:induction false} PayloadSizeSnoc(rs: seq<Record>, k: nat)
    requires k < |rs|
    ensures PayloadSize(rs[..k + 1]) == PayloadSize(rs[..k]) + RecordSize(rs[k])
  {
    if k == 0 {
      assert rs[..1] == [rs[0]];
    } else {
      PayloadSizeSnoc(rs[1..], k - 1);
      assert rs[..k + 1][1..] == rs[1..][..k] && rs[..k][1..] == rs[1..][..k - 1];
    }
  }

  function SegmentPayload(x: Snapshot): bytes
    requires SnapshotShaped(x)
  {
    Payload(SnapshotRecords(x), [])
  }

  function Boundary(x: Snapshot, k: nat): nat
    requires SnapshotShaped(x) && k <= |SnapshotRecords(x)|
  {
    PayloadSize(SnapshotRecords(x)[..k])
  }

  /** The loop about to read record k. */
  function Mark(x: Snapshot, k: nat, report: Report): Progress
    requires SnapshotShaped(x) && k <= |SnapshotRecords(x)|
  {
    Progress(Recovered(x, k), report, Boundary(x, k))
  }

  /** The first record, from k on, that does not fit whole into u octets. */
  function Reach(x: Snapshot, k: nat, u: nat): (n: nat)
    requires SnapshotShaped(x) && k <= |SnapshotRecords(x)| && Boundary(x, k) <= u
    ensures k <= n <= |SnapshotRecords(x)|
  {
    k + FitCount(SnapshotRecords(x)[k..], u - Boundary(x, k))
  }

  function Counted(report: Report, n: nat): Report {
    report.(recordsParsed := report.recordsParsed + n)
  }

  /** Record k is the next one the loop reads, and it lies whole before u. */
  ghost predicate GoesOn(x: Snapshot, limits: PersistenceLimits, u: nat, k: nat, report: Report)
    requires SnapshotShaped(x) && k < |SnapshotRecords(x)|
  {
    && Boundary(x, k) + RECORD_HEADER_SIZE <= u <= |SegmentPayload(x)|
    && ReadRecord(SegmentPayload(x)[..u], Mark(x, k, report), limits) == (Mark(x, k + 1, Counted(report, 1)), true)
  }

  lemma StepForward(x: Snapshot, limits: PersistenceLimits, u: nat, k: nat, report: Report)
    requires SnapshotShaped(x) && k < |SnapshotRecords(x)| && Restorable(x, limits)
    requires Boundary(x, k) + RecordSize(SnapshotRecords(x)[k]) <= u <= |SegmentPayload(x)|
    ensures GoesOn(x, limits, u, k, report)
    ensures Boundary(x, k + 1) <= u && Reach(x, k + 1, u) == Reach(x, k, u)
  {
    hide SnapshotRecords, Recovered, SnapshotShaped, Restorable, ReadRecord, Payload;
    var rs := SnapshotRecords(x);
    assert rs[k..][0] == rs[k] && rs[k..][1..] == rs[k + 1..];
    PayloadSizeSnoc(rs, k);
    WholeRecordStep(x, limits, u, k, report);
  }

  /** Running the loop from record k over the first u octets. */
  function LoopFrom(x: Snapshot, limits: PersistenceLimits, u: nat, k: nat, report: Report): Progress
    requires SnapshotShaped(x) && k <= |SnapshotRecords(x)|
    requires Boundary(x, k) <= u <= |SegmentPayload(x)|
  {
    ReadRecords(SegmentPayload(x)[..u], Mark(x, k, report), limits)
  }

  lemma StopHere(x: Snapshot, limits: PersistenceLimits, u: nat, k: nat, report: Report)
    requires SnapshotShaped(x) && k <= |SnapshotRecords(x)|
    requires Boundary(x, k) <= u <= |SegmentPayload(x)| && Restorable(x, limits)
    requires k == |SnapshotRecords(x)| || Boundary(x, k) + RecordSize(SnapshotRecords(x)[k]) > u
    ensures Reach(x, k, u) == k
    ensures StoppedBefore(x, k, k, report, LoopFrom(x, limits, u, k, report))
  {
    hide SnapshotRecords, Recovered, SnapshotShaped, Restorable, ReadRecord, Payload;
    var rs := SnapshotRecords(x);
    if k == |rs| {
      assert rs[..k] == rs;
      PayloadLength(rs);
    } else {
      assert rs[k..][0] == rs[k];
      if Boundary(x, k) + RECORD_HEADER_SIZE <= u {
        CutRecordStep(x, limits, u, k, Mark(x, k, report));
      }
    }
  }

  /** The loop, having started at record k with this report, stopped before record n. */
  ghost predicate StoppedBefore(x: Snapshot, k: nat, n: nat, report: Report, r: Progress)
    requires SnapshotShaped(x) && k <= n <= |SnapshotRecords(x)|
  {
    && r.out == Recovered(x, n)
    && r.offset == Boundary(x, n)
    && r.report.recordsParsed == report.recordsParsed + n - k
    && r.report.recordsRejected == report.recordsRejected
    && r.report.recordsDeclared == report.recordsDeclared
    && (report.truncated ==> r.report.truncated)
    && (n == |SnapshotRecords(x)| ==> r.report == Counted(report, n - k))
  }

  /** From record k on, the loop reads exactly the records that fit whole. */
  lemma {:induction false} ReadsWholeRecords(x: Snapshot, limits: PersistenceLimits, u: nat, k: nat, report: Report)
    requires SnapshotShaped(x) && k <= |SnapshotRecords(x)|
    requires Boundary(x, k) <= u <= |SegmentPayload(x)| && Restorable(x, limits)
    ensures StoppedBefore(x, k, Reach(x, k, u), report, LoopFrom(x, limits, u, k, report))
    decreases |SnapshotRecords(x)| - k
  {
    hide ReadRecord, SnapshotRecords, SegmentPayload, Boundary, Reach, Recovered, SnapshotShaped, Restorable;
    if k < |SnapshotRecords(x)| && Boundary(x, k) + RecordSize(SnapshotRecords(x)[k]) <= u {
      StepForward(x, limits, u, k, report);
      ReadsWholeRecords(x, limits, u, k + 1, Counted(report, 1));
    } else {
      StopHere(x, limits, u, k, report);
    }
  }

  lemma PayloadLength(rs: seq<Record>)
    ensures |Payload(rs, [])| == PayloadSize(rs)
  {}

  lemma {:induction false} FitAll(rs: seq<Record>)
    ensures FitCount(rs, PayloadSize(rs)) == |rs|
  {
    if rs != [] {
      FitAll(rs[1..]);
    }
  }

  lemma {:induction false} FitFewer(rs: seq<Record>, u: nat)
    requires u < PayloadSize(rs)
    ensures FitCount(rs, u) < |rs|
  {
    if rs != [] && u >= RecordSize(rs[0]) {
      FitFewer(rs[1..], u - RecordSize(rs[0]));
    }
  }

  // ---- the header ---------------------------------------------------------------------------

  lemma HeaderRoundTrip(h: Header, crc: u32, tail: bytes)
    ensures (HeaderImage(h, crc) + tail)[..8] == MAGIC
    ensures GetHeader((HeaderImage(h, crc) + tail)[8..]) == Got((h, crc), tail)
    ensures ZeroedHeader(HeaderImage(h, crc) + tail) == HeaderImage(h, 0)
  {
    hide PutU32, PutU64, PutI64, GetU32, GetU64, GetI64, PutHeaderBack;
    BackThen(h, tail);
    var back := PutHeaderBack(h, []);
    CrcThen(h, crc, back);
    CrcThen(h, 0, back);
    var front := PutHeaderFront(h, []);
    var image := HeaderImage(h, crc);
    assert image == front + (LittleEndian(crc, 4) + back);
    assert HeaderImage(h, 0) == front + (LittleEndian(0, 4) + back);
    ZeroWord();
    assert (image + tail)[..16] == front;
    assert (image + tail)[20..HEADER_SIZE] == back;
    assert ZeroedHeader(image + tail) == front + [0, 0, 0, 0] + back;
    HeaderFields(h, crc, tail);
  }

  lemma ZeroWord()
    ensures LittleEndian(0, 4) == [0, 0, 0, 0]
  {
    assert LittleEndian(0, 2) == [0, 0];
    assert LittleEndian(0, 3) == [0] + LittleEndian(0, 2);
  }

  lemma BackThen(h: Header, tail: bytes)
    ensures PutHeaderBack(h, tail) == PutHeaderBack(h, []) + tail
  {
    hide PutU32, PutU64, PutI64, GetU32, GetU64, GetI64;
    Back2Then(h, tail);
    var rest := PutU64(h.recordCount, PutU64(h.payloadBytes, PutU32(h.payloadCrc,
        PutU32(h.major, PutU32(h.minor, PutU32(h.patch, []))))));
    U64Then(ToU64(h.createdSteady), rest, tail);
    var s5 := PutI64(h.createdSteady, rest);
    U64Then(ToU64(h.createdWall), s5, tail);
    var s4 := PutI64(h.createdWall, s5);
    U32Then(h.flags, s4, tail);
    var s3 := PutU32(h.flags, s4);
    U32Then(h.runtimeIdLength, s3, tail);
    U32Then(h.policyVersion, PutU32(h.runtimeIdLength, s3), tail);
  }

  lemma U32Then(v: u32, s: bytes, tail: bytes)
    ensures PutU32(v, s + tail) == PutU32(v, s) + tail
  {
    assert LittleEndian(v, 4) + (s + tail) == (LittleEndian(v, 4) + s) + tail;
  }

  lemma U64Then(v: u64, s: bytes, tail: bytes)
    ensures PutU64(v, s + tail) == PutU64(v, s) + tail
    ensures PutI64(ToI64(v), s + tail) == PutI64(ToI64(v), s) + tail
  {
    assert LittleEndian(v, 8) + (s + tail) == (LittleEndian(v, 8) + s) + tail;
  }

  lemma Back2Then(h: Header, tail: bytes)
    ensures PutU64(h.recordCount, PutU64(h.payloadBytes, PutU32(h.payloadCrc,
              PutU32(h.major, PutU32(h.minor, PutU32(h.patch, tail))))))
         == PutU64(h.recordCount, PutU64(h.payloadBytes, PutU32(h.payloadCrc,
              PutU32(h.major, PutU32(h.minor, PutU32(h.patch, [])))))) + tail
  {
    hide PutU32, PutU64, GetU32, GetU64;
    assert [] + tail == tail;
    var s1 := PutU32(h.patch, []);
    U32Then(h.patch, [], tail);
    U32Then(h.minor, s1, tail);
    var s2 := PutU32(h.minor, s1);
    U32Then(h.major, s2, tail);
    var s3 := PutU32(h.major, s2);
    U32Then(h.payloadCrc, s3, tail);
    var s4 := PutU32(h.payloadCrc, s3);
    U64Then(h.payloadBytes, s4, tail);
    U64Then(h.recordCount, PutU64(h.payloadBytes, s4), tail);
  }

  lemma CrcThen(h: Header, crc: u32, back: bytes)
    ensures PutHeaderFront(h, PutU32(crc, back)) == PutHeaderFront(h, []) + (LittleEndian(crc, 4) + back)
  {
    hide LittleEndian;
    var a := LittleEndian(h.formatVersion, 4);
    var b := LittleEndian(h.headerSize, 4);
    assert MAGIC + (a + (b + (LittleEndian(crc, 4) + back))) == (MAGIC + (a + b)) + (LittleEndian(crc, 4) + back);
    assert b + [] == b;
  }

  lemma HeaderFields(h: Header, crc: u32, tail: bytes)
    ensures (HeaderImage(h, crc) + tail)[..8] == MAGIC
    ensures GetHeader((HeaderImage(h, crc) + tail)[8..]) == Got((h, crc), tail)
  {
    hide PutU32, PutU64, PutI64, GetU32, GetU64, GetI64;
    FrontThen(h, crc, tail);
    var body := PutU32(h.formatVersion, PutU32(h.headerSize, PutU32(crc, PutHeaderBack(h, tail))));
    assert (MAGIC + body)[8..] == body && (MAGIC + body)[..8] == MAGIC;
  }

  lemma FrontThen(h: Header, crc: u32, tail: bytes)
    ensures HeaderImage(h, crc) + tail
         == MAGIC + PutU32(h.formatVersion, PutU32(h.headerSize, PutU32(crc, PutHeaderBack(h, tail))))
  {
    hide LittleEndian, PutHeaderBack;
    BackThen(h, tail);
    var a := LittleEndian(h.formatVersion, 4);
    var b := LittleEndian(h.headerSize, 4);
    var c := LittleEndian(crc, 4);
    var back := PutHeaderBack(h, []);
    assert HeaderImage(h, crc) == MAGIC + (a + (b + (c + back)));
    assert (MAGIC + (a + (b + (c + back)))) + tail == MAGIC + (a + (b + (c + (back + tail))));
  }

  // ---- whole segments ---------------------------------------------------------------------

  lemma FitsSegment(x: Snapshot, limits: PersistenceLimits)
    requires SnapshotShaped(x) && Fits(x, limits)
    ensures |SnapshotRecords(x)| < U64_LIMIT && |Payload(SnapshotRecords(x), [])| < U64_LIMIT
    ensures |x.runtimeId| <= MAX_RUNTIME_ID_BYTES && limits.Valid()
  {
    hide SnapshotRecords, Payload;
  }

  function SegmentOf(x: Snapshot, limits: PersistenceLimits): bytes
    requires SnapshotShaped(x) && Fits(x, limits)
  {
    FitsSegment(x, limits);
    Segment(x)
  }

  function HeaderOf(x: Snapshot, limits: PersistenceLimits): Header
    requires SnapshotShaped(x) && Fits(x, limits)
  {
    FitsSegment(x, limits);
    SnapshotHeader(x)
  }

  lemma SegmentParts(x: Snapshot, limits: PersistenceLimits)
    requires SnapshotShaped(x) && Fits(x, limits)
    ensures SegmentOf(x, limits) == SealedHeader(HeaderOf(x, limits)) + x.runtimeId + SegmentPayload(x)
    ensures (var h := HeaderOf(x, limits);
             && h.formatVersion == FORMAT_VERSION && h.headerSize == HEADER_SIZE
             && h.runtimeIdLength == |x.runtimeId| <= MAX_RUNTIME_ID_BYTES
             && h.policyVersion == x.policyVersion
             && h.createdWall == x.createdWall && h.createdSteady == x.createdSteady
             && h.recordCount == |SnapshotRecords(x)| && h.payloadBytes == |SegmentPayload(x)|
             && h.payloadCrc == Crc32c.Word(Crc32c.Checksum(SegmentPayload(x))))
    ensures limits.Valid()
  {
    hide SealedHeader, SnapshotRecords, Payload;
    FitsSegment(x, limits);
  }

  /** The report as it stands when the header has been accepted. */
  function HeaderAccepted(h: Header): Report {
    BLANK_REPORT.(magicValid := true, formatVersion := h.formatVersion, createdWall := h.createdWall,
                  recordsDeclared := h.recordCount, bytesDeclared := h.payloadBytes,
                  headerCrcValid := true, versionSupported := true)
  }

  /** A sealed header is accepted whatever follows it. */
  lemma SealedHeaderAccepted(h: Header, tail: bytes, limits: PersistenceLimits)
    requires limits.Valid() && h.formatVersion == FORMAT_VERSION && h.headerSize == HEADER_SIZE
    requires h.runtimeIdLength <= MAX_RUNTIME_ID_BYTES
    ensures (var s := SealedHeader(h) + tail;
             DecodeSegment(s, limits) ==
               if h.runtimeIdLength > |tail|
               then Decoded(Ok, DEFAULT_SNAPSHOT, Damaged(HeaderAccepted(h)).(truncated := true))
               else DecodePayload(s, h, HeaderAccepted(h), limits))
  {
    hide HeaderImage, ZeroedHeader, GetHeader, DecodePayload, Crc32c.Checksum, Crc32c.Word;
    HeaderRoundTrip(h, HeaderChecksum(h), tail);
  }

  lemma RecoveredNone(x: Snapshot)
    ensures Recovered(x, 0) == DEFAULT_SNAPSHOT.(runtimeId := x.runtimeId, createdWall := x.createdWall,
                                                 createdSteady := x.createdSteady, policyVersion := x.policyVersion)
  {}

  lemma FirstBoundary(x: Snapshot)
    requires SnapshotShaped(x)
    ensures Boundary(x, 0) == 0
    ensures Boundary(x, |SnapshotRecords(x)|) == |SegmentPayload(x)|
  {
    hide SnapshotRecords;
    var rs := SnapshotRecords(x);
    assert rs[..|rs|] == rs;
    PayloadLength(rs);
  }

  lemma ReachAll(x: Snapshot, u: nat)
    requires SnapshotShaped(x) && u <= |SegmentPayload(x)| && Boundary(x, 0) == 0
    ensures Reach(x, 0, u) == |SnapshotRecords(x)| <==> u == |SegmentPayload(x)|
  {
    hide SnapshotRecords;
    var rs := SnapshotRecords(x);
    assert rs[0..] == rs;
    PayloadLength(rs);
    if u < |SegmentPayload(x)| {
      FitFewer(rs, u);
    } else {
      FitAll(rs);
    }
  }

  /** How many records lie whole within the first u octets of the payload. */
  function WholeRecords(x: Snapshot, u: nat): nat
    requires SnapshotShaped(x)
  {
    FirstBoundary(x);
    Reach(x, 0, u)
  }

  lemma PayloadLocated(h: Header, rid: bytes, payload: bytes)
    requires |rid| == h.runtimeIdLength && |payload| <= h.payloadBytes
    ensures (var s := SealedHeader(h) + (rid + payload);
             && |s| == HEADER_SIZE + h.runtimeIdLength + |payload|
             && UsablePayload(s, h) == payload
             && s[HEADER_SIZE..HEADER_SIZE + h.runtimeIdLength] == rid)
  {
    hide SealedHeader;
    var s := SealedHeader(h) + (rid + payload);
    var start := HEADER_SIZE + |rid|;
    assert s[HEADER_SIZE..start] == rid;
    assert s[start..start + |payload|] == payload;
  }

  /** The payload and the snapshot that record reading starts from. */
  lemma PayloadStart(x: Snapshot, limits: PersistenceLimits, u: nat, rid: bytes)
    requires SnapshotShaped(x) && Fits(x, limits) && u <= |SegmentPayload(x)| && |rid| == |x.runtimeId|
    ensures (var h := HeaderOf(x, limits);
             var s := SealedHeader(h) + (rid + SegmentPayload(x)[..u]);
             && |s| >= HEADER_SIZE + h.runtimeIdLength
             && UsablePayload(s, h) == SegmentPayload(x)[..u]
             && InitialSnapshot(s, h) == Recovered(x, 0).(runtimeId := rid))
  {
    hide SealedHeader, SnapshotRecords, SnapshotShaped, SegmentPayload, Fits, HeaderOf, UsablePayload, Recovered;
    SegmentParts(x, limits);
    RecoveredNone(x);
    PayloadLocated(HeaderOf(x, limits), rid, SegmentPayload(x)[..u]);
  }

  lemma CutReport(x: Snapshot, limits: PersistenceLimits, u: nat)
    requires SnapshotShaped(x) && Fits(x, limits) && u <= |SegmentPayload(x)|
    ensures (var h := HeaderOf(x, limits);
             var r := PayloadReport(SegmentPayload(x)[..u], h, HeaderAccepted(h));
             && (u < |SegmentPayload(x)| ==> r.truncated)
             && (u == |SegmentPayload(x)| ==> r == HeaderAccepted(h).(payloadCrcValid := true))
             && r.recordsParsed == 0 && r.recordsRejected == 0 && r.recordsDeclared == |SnapshotRecords(x)|)
  {
    hide SealedHeader, SnapshotRecords, SnapshotShaped, SegmentPayload, Fits, HeaderOf, Crc32c.Checksum, Crc32c.Word;
    SegmentParts(x, limits);
    var p := SegmentPayload(x);
    assert p[..|p|] == p;
  }

  lemma CutVerdict(x: Snapshot, u: nat, h: Header, before: Report, p: Progress)
    requires SnapshotShaped(x) && u <= |SegmentPayload(x)| && WholeRecords(x, u) <= |SnapshotRecords(x)|
    requires u == |SegmentPayload(x)| <==> WholeRecords(x, u) == |SnapshotRecords(x)|
    requires StoppedBefore(x, 0, WholeRecords(x, u), before, p)
    requires before.recordsParsed == 0 && before.recordsRejected == 0
    requires before.recordsDeclared == |SnapshotRecords(x)| == h.recordCount
    requires u < |SegmentPayload(x)| ==> before.truncated
    requires u == |SegmentPayload(x)| ==> before == HeaderAccepted(h).(payloadCrcValid := true)
    requires Boundary(x, |SnapshotRecords(x)|) == |SegmentPayload(x)|
    ensures (var r := Conclude(p, u, h.recordCount);
             && r.recordsParsed == WholeRecords(x, u) && r.recordsDeclared == |SnapshotRecords(x)|
             && r.recordsRejected == 0
             && (r.Clean() <==> u == |SegmentPayload(x)|))
  {
    hide SnapshotRecords, Recovered, SnapshotShaped, SegmentPayload, Reach, Boundary, WholeRecords;
  }

  /** Decoding a payload cut after u octets, under an intact header. */
  lemma CutPayload(x: Snapshot, limits: PersistenceLimits, u: nat)
    requires SnapshotShaped(x) && Restorable(x, limits) && u <= |SegmentPayload(x)|
    ensures (var h := HeaderOf(x, limits);
             var s := SealedHeader(h) + (x.runtimeId + SegmentPayload(x)[..u]);
             && |s| >= HEADER_SIZE + h.runtimeIdLength
             && var d := DecodePayload(s, h, HeaderAccepted(h), limits);
                var k := WholeRecords(x, u);
             && d.status == Ok && d.out == Recovered(x, k)
             && d.report.recordsParsed == k && d.report.recordsDeclared == |SnapshotRecords(x)|
             && d.report.recordsRejected == 0
             && (d.report.Clean() <==> u == |SegmentPayload(x)|))
  {
    hide SealedHeader, SnapshotRecords, Recovered, SnapshotShaped, SegmentPayload, ReadRecords, Reach,
      Normal, Fits, SamplesReadable, HeaderOf, Boundary, UsablePayload, InitialSnapshot, PayloadReport,
      HeaderAccepted, Conclude, Report.Clean;
    SegmentParts(x, limits);
    FirstBoundary(x);
    ReachAll(x, u);
    PayloadStart(x, limits, u, x.runtimeId);
    KeepsRuntimeId(x);
    CutReport(x, limits, u);
    var h := HeaderOf(x, limits);
    var cut := SegmentPayload(x)[..u];
    var before := PayloadReport(cut, h, HeaderAccepted(h));
    ReadsWholeRecords(x, limits, u, 0, before);
    CutVerdict(x, u, h, before, LoopFrom(x, limits, u, 0, before));
  }

  lemma KeepsRuntimeId(x: Snapshot)
    ensures Recovered(x, 0).(runtimeId := x.runtimeId) == Recovered(x, 0)
  {}

  lemma SplitSegment(x: Snapshot, limits: PersistenceLimits, n: nat)
    requires SnapshotShaped(x) && Fits(x, limits)
    requires HEADER_SIZE <= n <= |SegmentOf(x, limits)|
    ensures (var tail := SegmentOf(x, limits)[..n][HEADER_SIZE..];
             && SegmentOf(x, limits)[..n] == SealedHeader(HeaderOf(x, limits)) + tail
             && (n < HEADER_SIZE + |x.runtimeId| ==> |tail| < |x.runtimeId|)
             && (n >= HEADER_SIZE + |x.runtimeId| ==>
                   var u := n - HEADER_SIZE - |x.runtimeId|;
                   u <= |SegmentPayload(x)| && tail == x.runtimeId + SegmentPayload(x)[..u]))
  {
    hide SealedHeader, SnapshotRecords, SegmentPayload, SnapshotShaped, Fits, SegmentOf, HeaderOf;
    SegmentParts(x, limits);
    var head := SealedHeader(HeaderOf(x, limits));
    var s := SegmentOf(x, limits);
    assert s == head + (x.runtimeId + SegmentPayload(x));
    assert s[..n][..HEADER_SIZE] == head;
    assert s[..n] == s[..n][..HEADER_SIZE] + s[..n][HEADER_SIZE..];
    if n >= HEADER_SIZE + |x.runtimeId| {
      var u := n - HEADER_SIZE - |x.runtimeId|;
      assert s[..n][HEADER_SIZE..] == (x.runtimeId + SegmentPayload(x))[..|x.runtimeId| + u];
    }
  }

  /** Truncation safety: whatever is left of a segment, as long as its header is,
      decodes to exactly the records that are still whole, and a cut is never
      reported clean. */
  lemma TruncationSafety(x: Snapshot, limits: PersistenceLimits, n: nat)
    requires SnapshotShaped(x) && Restorable(x, limits) && HEADER_SIZE <= n <= |SegmentOf(x, limits)|
    ensures (var d := DecodeSegment(SegmentOf(x, limits)[..n], limits);
             && d.status == Ok
             && (d.report.Clean() <==> n == |SegmentOf(x, limits)|)
             && (n < HEADER_SIZE + |x.runtimeId| ==> d.out == DEFAULT_SNAPSHOT)
             && (n >= HEADER_SIZE + |x.runtimeId| ==>
                   var k := WholeRecords(x, n - HEADER_SIZE - |x.runtimeId|);
                   && d.out == Recovered(x, k)
                   && d.report.recordsParsed == k && d.report.recordsRejected == 0
                   && d.report.recordsDeclared == |SnapshotRecords(x)|))
  {
    hide SealedHeader, SnapshotRecords, Recovered, SnapshotShaped, SegmentPayload, DecodeSegment, DecodePayload,
      Normal, Fits, SamplesReadable, HeaderOf, SegmentOf, Reach, Boundary;
    var h := HeaderOf(x, limits);
    var s := SegmentOf(x, limits)[..n];
    SegmentParts(x, limits);
    SplitSegment(x, limits, n);
    FirstBoundary(x);
    SealedHeaderAccepted(h, s[HEADER_SIZE..], limits);
    assert |SegmentOf(x, limits)| == HEADER_SIZE + |x.runtimeId| + |SegmentPayload(x)|;
    if n >= HEADER_SIZE + |x.runtimeId| {
      CutPayload(x, limits, n - HEADER_SIZE - |x.runtimeId|);
    }
  }

  /** The count is the right one: the last record counted ends in time and the next does not. */
  lemma WholeRecordsIsMaximal(x: Snapshot, u: nat)
    requires SnapshotShaped(x)
    ensures (var k := WholeRecords(x, u);
             && k <= |SnapshotRecords(x)| && Boundary(x, k) <= u
             && (k < |SnapshotRecords(x)| ==> Boundary(x, k + 1) > u))
  {
    hide SnapshotRecords, SnapshotShaped, FitCount, SegmentPayload;
    FirstBoundary(x);
    var rs := SnapshotRecords(x);
    assert rs[0..] == rs;
    FitCountIsMaximal(rs, u);
  }

  lemma {:induction false} FitCountIsMaximal(rs: seq<Record>, u: nat)
    ensures (var k := FitCount(rs, u);
             PayloadSize(rs[..k]) <= u && (k < |rs| ==> PayloadSize(rs[..k + 1]) > u))
  {
    if rs != [] {
      var k := FitCount(rs, u);
      if k == 0 {
        assert rs[..1][1..] == [];
      } else {
        FitCountIsMaximal(rs[1..], u - RecordSize(rs[0]));
        assert rs[..k][1..] == rs[1..][..k - 1];
        if k < |rs| {
          assert rs[..k + 1][1..] == rs[1..][..k];
        }
      }
    }
  }

  /** Nothing partial comes back: queues are a prefix of the original list, every
      other section is there in full or not at all. */
  lemma RecoveredIsPrefix(x: Snapshot, k: nat)
    ensures (var r := Recovered(x, k);
             && r.queues <= x.queues
             && |r.queues| == (if k == 0 then 0 else if k <= |x.queues| then k - 1 else |x.queues|)
             && (r.sources == [] || (r.sources == x.sources && r.queues == x.queues))
             && (r.events == [] || (r.events == x.events && r.sources == x.sources))
             && (r.hasMetadata ==> r.metadata == x.metadata && r.events == x.events && r.sources == x.sources)
             && (!r.hasMetadata ==> r.metadata == DEFAULT_METADATA))
  {
    assert x.queues[..|x.queues|] == x.queues;
  }

  /** Round trip: the encoder's output decodes to the snapshot it came from, if no queue in it has
      more samples than a segment may have records. */
  lemma SegmentRoundTrip(x: Snapshot, limits: PersistenceLimits)
    requires SnapshotShaped(x) && Restorable(x, limits)
    ensures (var d := DecodeSegment(SegmentOf(x, limits), limits);
             && d.status == Ok && d.out == x && d.report.Clean()
             && d.report.recordsParsed == d.report.recordsDeclared == |SnapshotRecords(x)|)
  {
    hide SnapshotRecords, Recovered, SnapshotShaped, SegmentPayload, DecodeSegment,
      Fits, SamplesReadable, HeaderOf, SegmentOf, Reach, Boundary, NormalQueue, NormalSource,
      NormalEvent, NormalMetadata;
    var s := SegmentOf(x, limits);
    assert s[..|s|] == s;
    SegmentParts(x, limits);
    assert |s| == HEADER_SIZE + |x.runtimeId| + |SegmentPayload(x)|;
    TruncationSafety(x, limits, |s|);
    FirstBoundary(x);
    ReachAll(x, |SegmentPayload(x)|);
    RecoveredAll(x);
  }
}
