/** Exactly which of the segments that the encoder writes can be read back: the reader limits
    the samples of a queue, the encoder does not. */
module SegmentReadback {
  import opened Wrappers
  import opened Bytes
  import opened Identity
  import opened SegmentSpec
  import opened SegmentLayout
  import opened SegmentProofs
  import opened SegmentTheorems
  import opened SegmentDamage
  import Crc32c

  predicate Oversized(q: DurableQueueState, limits: PersistenceLimits) {
    |q.samples| > limits.maxSegmentRecords
  }

  /** The reader refuses a queue's record that the encoder writes when it has too many samples. */
  lemma OversizedRefused(q: DurableQueueState, limits: PersistenceLimits)
    requires NormalQueue(q) && Oversized(q, limits)
    requires |PutQueueRecord(q, [])| <= limits.maxRecordBytes && |PutQueueRecord(q, [])| < U32_LIMIT
    ensures GetQueueRecord(PutQueueRecord(q, []), limits).Refused?
  {
    hide PutI64, PutU64, PutU32, PutU8, PutString, PutOptionalU16, PutOptionalName, PutSamples,
      GetI64, GetU64, GetU32, GetU8, GetString, GetOptionalU16, GetOptionalName, GetSamples, ValidName;
    PathNameIsName(q.path.device);
    PathNameIsName(q.path.port);
    if q.schedulingClass.Some? {
      NameIsBounded(q.schedulingClass.value);
    }
    CountRoundTrip(|q.samples|, PutSamples(q.samples, []));
  }

  /** The queue of record k, when it is the record of a queue, is small enough. */
  predicate Early(x: Snapshot, limits: PersistenceLimits, k: nat) {
    k <= |x.queues| && (k > 0 ==> !Oversized(x.queues[k - 1], limits))
  }

  lemma ApplyEarly(x: Snapshot, limits: PersistenceLimits, k: nat)
    requires Writable(x, limits) && k < |SnapshotRecords(x)| && Early(x, limits, k)
    ensures (var r := SnapshotRecords(x)[k];
             ApplyRecord(Recovered(x, k), r.kind, r.value, limits) == Applied(true, Recovered(x, k + 1)))
  {
    hide ApplyRecord, Recovered, PutSession, PutQueueRecord, SnapshotRecords, SnapshotShaped, Normal, Fits;
    RecordAt(x, k);
    if k == 0 {
      ApplySession(x, limits);
    } else {
      ApplyQueue(x, k - 1, limits);
    }
  }

  /** The record of an oversized queue leaves nothing behind. */
  lemma ApplyOversized(x: Snapshot, limits: PersistenceLimits, i: nat, out: Snapshot)
    requires Writable(x, limits) && i < |x.queues| && Oversized(x.queues[i], limits)
    ensures i + 1 < |SnapshotRecords(x)|
    ensures (var r := SnapshotRecords(x)[i + 1]; ApplyRecord(out, r.kind, r.value, limits) == Applied(false, out))
  {
    hide PutQueueRecord, GetQueueRecord, SnapshotRecords, NormalQueue, NormalSource, NormalEvent, NormalMetadata, QueueShaped, Oversized;
    assert x.queues[i] in x.queues;
    RecordCount(x);
    RecordAt(x, i + 1);
    RecordFits(x, i + 1, limits);
    OversizedRefused(x.queues[i], limits);
  }

  /** What the loop makes of an intact record, readable or not. */
  lemma IntactTurn(x: Snapshot, limits: PersistenceLimits, k: nat, p: Progress)
    requires Writable(x, limits) && k < |SnapshotRecords(x)| && p.offset == Boundary(x, k)
    ensures Boundary(x, k) + RECORD_HEADER_SIZE <= Boundary(x, k + 1) <= |SegmentPayload(x)|
    ensures (var r := SnapshotRecords(x)[k]; var applied := ApplyRecord(p.out, r.kind, r.value, limits);
             ReadRecord(SegmentPayload(x), p, limits)
             == if applied.ok then (Progress(applied.out, p.report.(recordsParsed := p.report.recordsParsed + 1), Boundary(x, k + 1)), true)
                else (Progress(applied.out, Rejected(p.report), p.offset), false))
  {
    hide PutHead, GetHead, RecordChecksum, ApplyRecord, SnapshotRecords, Payload, Recovered, Normal, SnapshotShaped;
    var rs := SnapshotRecords(x);
    var payload, r := SegmentPayload(x), rs[k];
    FirstBoundary(x);
    RecordFits(x, k, limits);
    PayloadSizeSnoc(rs, k);
    BoundariesAscend(rs, k + 1, |rs|);
    CutView(rs, k, |payload|);
    var rest := r.value + Payload(rs[k + 1..], []);
    assert payload[..|payload|] == payload;
    assert rest[..|payload| - p.offset - RECORD_HEADER_SIZE] == rest by { RestIsAll(x, k); }
    HeadRoundTrip(r, rest);
    HeadThen(r, rest);
    var begin := p.offset + RECORD_HEADER_SIZE;
    assert payload[begin..begin + |r.value|] == payload[p.offset..][RECORD_HEADER_SIZE..][..|r.value|];
    assert rest[..|r.value|] == r.value;
  }

  lemma RestIsAll(x: Snapshot, k: nat)
    requires SnapshotShaped(x) && k < |SnapshotRecords(x)|
    ensures (var rs := SnapshotRecords(x);
             |rs[k].value + Payload(rs[k + 1..], [])| == |SegmentPayload(x)| - Boundary(x, k) - RECORD_HEADER_SIZE)
  {
    hide SnapshotRecords, SnapshotShaped, PutHead;
    var rs := SnapshotRecords(x);
    PayloadFrom(rs, k);
    assert rs[k..][0] == rs[k] && rs[k..][1..] == rs[k + 1..];
  }

  lemma EarlyTurn(x: Snapshot, limits: PersistenceLimits, k: nat, report: Report)
    requires Writable(x, limits) && k < |SnapshotRecords(x)| && Early(x, limits, k)
    ensures Boundary(x, k) + RECORD_HEADER_SIZE <= Boundary(x, k + 1) <= |SegmentPayload(x)|
    ensures ReadRecord(SegmentPayload(x), Mark(x, k, report), limits) == (Mark(x, k + 1, Counted(report, 1)), true)
  {
    hide SnapshotRecords, Recovered, ReadRecord, Boundary, SegmentPayload, SnapshotShaped, Normal, Fits, ApplyRecord, Early;
    IntactTurn(x, limits, k, Mark(x, k, report));
    ApplyEarly(x, limits, k);
  }

  lemma OversizedTurn(x: Snapshot, limits: PersistenceLimits, i: nat, report: Report)
    requires Writable(x, limits) && i < |x.queues| && Oversized(x.queues[i], limits)
    ensures i + 1 < |SnapshotRecords(x)| && Boundary(x, i + 1) + RECORD_HEADER_SIZE <= |SegmentPayload(x)|
    ensures ReadRecord(SegmentPayload(x), Mark(x, i + 1, report), limits) == (Mark(x, i + 1, Rejected(report)), false)
  {
    hide SnapshotRecords, Recovered, ReadRecord, Boundary, SegmentPayload, SnapshotShaped, Normal, Fits, ApplyRecord, Oversized;
    ApplyOversized(x, limits, i, Recovered(x, i + 1));
    IntactTurn(x, limits, i + 1, Mark(x, i + 1, report));
  }

  /** The loop comes to the first oversized queue, rejects its record and stops. */
  lemma {:induction false} LoopStopsAtOversized(x: Snapshot, limits: PersistenceLimits, i: nat, k: nat, report: Report)
    requires Writable(x, limits) && i < |x.queues| && Oversized(x.queues[i], limits) && k <= i + 1
    requires forall j :: 0 <= j < i ==> !Oversized(x.queues[j], limits)
    requires i + 1 < |SnapshotRecords(x)| && Boundary(x, k) <= |SegmentPayload(x)|
    ensures ReadRecords(SegmentPayload(x), Mark(x, k, report), limits) == Mark(x, i + 1, Rejected(Counted(report, i + 1 - k)))
    decreases i + 1 - k
  {
    hide SnapshotRecords, Recovered, ReadRecord, Boundary, SegmentPayload, SnapshotShaped, Normal, Fits, Oversized;
    if k <= i {
      EarlyTurn(x, limits, k, report);
      LoopStopsAtOversized(x, limits, i, k + 1, Counted(report, 1));
    } else {
      OversizedTurn(x, limits, i, report);
    }
  }

  lemma SegmentIs(x: Snapshot, limits: PersistenceLimits)
    requires Writable(x, limits)
    ensures SegmentOf(x, limits) == SealedHeader(HeaderOf(x, limits)) + (x.runtimeId + SegmentPayload(x))
  {
    hide SealedHeader, SegmentPayload, HeaderOf, SegmentOf, Fits, SnapshotShaped, Normal;
    SegmentIsSum(x, limits);
  }

  /** A segment with an oversized queue is written, and gives back what stands before the first
      such queue and nothing else; its reading is not clean. */
  lemma OversizedQueueStops(x: Snapshot, limits: PersistenceLimits, i: nat)
    requires Writable(x, limits) && i < |x.queues| && Oversized(x.queues[i], limits)
    requires forall j :: 0 <= j < i ==> !Oversized(x.queues[j], limits)
    ensures (var d := DecodeSegment(SegmentOf(x, limits), limits);
             && d.status == Ok && d.out == Recovered(x, i + 1) && d.out.queues == x.queues[..i]
             && !d.report.Clean() && d.report.recordsParsed == i + 1 && d.report.recordsRejected == 1)
  {
    hide SealedHeader, DecodeSegment, ReadRecords, HeaderOf, SnapshotRecords, Fits, SnapshotShaped, Normal, SegmentOf,
      SegmentPayload, Boundary, PayloadReport, HeaderAccepted, Report.Clean, Conclude, Recovered, Oversized, ApplyRecord;
    var h, p := HeaderOf(x, limits), SegmentPayload(x);
    SegmentIs(x, limits);
    FirstBoundary(x);
    ApplyOversized(x, limits, i, x);
    DecodeUnderHeader(x, limits, p);
    LoopStopsAtOversized(x, limits, i, 0, PayloadReport(p, h, HeaderAccepted(h)));
    DamagedVerdict(x, i + 1, p, h);
    QueuesUpTo(x, i);
  }

  lemma QueuesUpTo(x: Snapshot, i: nat)
    requires i < |x.queues|
    ensures Recovered(x, i + 1).queues == x.queues[..i]
  {}

  lemma FirstOversized(x: Snapshot, limits: PersistenceLimits) returns (i: nat)
    requires exists q :: q in x.queues && Oversized(q, limits)
    ensures i < |x.queues| && Oversized(x.queues[i], limits) && forall j :: 0 <= j < i ==> !Oversized(x.queues[j], limits)
  {
    hide Oversized;
    i := 0;
    while i < |x.queues| && !Oversized(x.queues[i], limits)
      invariant i <= |x.queues| && forall j :: 0 <= j < i ==> !Oversized(x.queues[j], limits)
    {
      i := i + 1;
    }
  }

  /** Of the snapshots in normal form that the encoder accepts, exactly those come back in which no
      queue has more samples than a segment may have records. */
  lemma ReadBackIff(x: Snapshot, limits: PersistenceLimits)
    requires Writable(x, limits)
    ensures DecodeSegment(SegmentOf(x, limits), limits).out == x <==> SamplesReadable(x, limits)
    ensures DecodeSegment(SegmentOf(x, limits), limits).report.Clean() <==> SamplesReadable(x, limits)
  {
    hide DecodeSegment, SegmentOf, Fits, SnapshotShaped, Normal, Report.Clean, Recovered;
    if SamplesReadable(x, limits) {
      SegmentRoundTrip(x, limits);
    } else {
      var i := FirstOversized(x, limits);
      OversizedQueueStops(x, limits, i);
    }
  }

  // ---- one such snapshot ----------------------------------------------------------------------

  const NOBODY: Name := [0x61]

  const QUIET := DurableSample(0, [], 0, 0, [], [], 0, 0, 0, {}, [0, 0, 0, 0, 0, 0, 0, 0, 0, 0, 0, 0, 0, 0, 0, 0, 0], 0, 0, 0, 0)

  const CROWDED := DurableQueueState(QueuePath(NOBODY, NOBODY, 0), false, None, None, 0, 0, [QUIET, QUIET, QUIET])

  /** One queue with three samples; a segment may have two records. */
  const CROWD := Snapshot([], 0, 0, 1, NOBODY, [CROWDED], [], [], DEFAULT_METADATA, false)
  const TWO_RECORDS := PersistenceLimits(0x10_0000, 2, 0x1_0000, 0x1_0000, 1)

  lemma QuietSize(tail: bytes)
    ensures |PutSample(QUIET, tail)| <= 200 + |tail|
  {
    hide PutI64, PutU64, PutU32, PutU8, PutString, PutFieldValues, PutBitmap, MaskAsU64;
    NoFields(QUIET.values, 0, PutU8(0, PutU8(0, PutU8(0, PutI64(0, tail)))));
    NoBits(PutFieldValues({}, QUIET.values, 0, PutU8(0, PutU8(0, PutU8(0, PutI64(0, tail))))));
  }

  lemma {:induction false} NoFields(values: seq<u64>, i: nat, tail: bytes)
    requires i <= FIELD_COUNT == |values|
    ensures PutFieldValues({}, values, i, tail) == tail
    decreases FIELD_COUNT - i
  {
    if i < FIELD_COUNT {
      NoFields(values, i + 1, tail);
    }
  }

  lemma NoBits(tail: bytes)
    ensures |PutBitmap({}, tail)| == 1 + |tail|
  {
    NoFieldsListed(0);
  }

  lemma {:induction false} NoFieldsListed(i: nat)
    requires i <= FIELD_COUNT
    ensures FieldList({}, i) == []
    decreases FIELD_COUNT - i
  {
    if i < FIELD_COUNT {
      NoFieldsListed(i + 1);
    }
  }

  lemma CrowdedSize()
    ensures |PutQueueRecord(CROWDED, [])| <= 1000
  {
    hide PutI64, PutU64, PutU32, PutU8, PutString, PutSample, PutOptionalU16, PutOptionalName;
    QuietSize([]);
    QuietSize(PutSamples([QUIET], []));
    QuietSize(PutSamples([QUIET, QUIET], []));
    assert [QUIET, QUIET, QUIET][1..] == [QUIET, QUIET] && [QUIET, QUIET][1..] == [QUIET] && [QUIET][1..] == [];
    assert PutSamples([], []) == [];
  }

  lemma CrowdIsNormal()
    ensures SnapshotShaped(CROWD) && Normal(CROWD)
  {
    assert ValidPathName(NOBODY) && NormalSample(QUIET);
    assert forall x :: x in CROWDED.samples ==> x == QUIET;
    assert forall q :: q in CROWD.queues ==> q == CROWDED;
  }

  /** The encoder accepts it, and its own decoder does not give it back. */
  lemma WrittenNotReadBack()
    ensures Writable(CROWD, TWO_RECORDS) && Oversized(CROWDED, TWO_RECORDS)
    ensures (var d := DecodeSegment(SegmentOf(CROWD, TWO_RECORDS), TWO_RECORDS); d.status == Ok && d.out.queues == [] && !d.report.Clean())
  {
    hide DecodeSegment, SegmentOf, PutQueueRecord, PutSession, Normal, Recovered;
    CrowdIsNormal();
    CrowdedSize();
    CrowdFits();
    OversizedQueueStops(CROWD, TWO_RECORDS, 0);
  }

  lemma CrowdFits()
    requires SnapshotShaped(CROWD) && |PutQueueRecord(CROWDED, [])| <= 1000
    ensures Fits(CROWD, TWO_RECORDS)
  {
    hide PutQueueRecord, PutHead;
    hide PutI64, PutU32, PutString;
    var rs := SnapshotRecords(CROWD);
    var session, queue := Record(SESSION_HEADER, PutSession(CROWD, [])), Record(QUEUE_SNAPSHOT, PutQueueRecord(CROWDED, []));
    assert |session.value| <= 100;
    assert rs == [session, queue];
    assert rs[1..] == [queue] && [queue][1..] == [];
    PayloadLength(rs);
    assert PayloadSize([]) == 0;
  }
}
