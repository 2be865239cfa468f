/** Changed octets in the header of a record: the reserved ones go unseen by the record's own
    checksum; the checksum, type and flags octets cost that record and what follows it. */
module SegmentHeads {
  import opened Wrappers
  import opened Bytes
  import opened SegmentSpec
  import opened SegmentLayout
  import opened SegmentProofs
  import opened SegmentTheorems
  import opened SegmentDamage
  import Crc32c

  /** The four fields that the record loop uses, of the record at an offset. */
  function HeadAt(payload: bytes, o: nat): Head
    requires o + RECORD_HEADER_SIZE <= |payload|
  {
    PowerLimits();
    Head(FromLittleEndian(payload[o..o + 4]), payload[o + 4], payload[o + 5], FromLittleEndian(payload[o + 8..o + 12]))
  }

  lemma HeadIsAt(payload: bytes, o: nat)
    requires o + RECORD_HEADER_SIZE <= |payload|
    ensures GetHead(payload[o..]).Got? && GetHead(payload[o..]).value == HeadAt(payload, o)
  {
    hide FromLittleEndian, GetHead;
    HeadFields(payload[o..]);
    assert payload[o..][..4] == payload[o..o + 4] && payload[o..][8..12] == payload[o + 8..o + 12];
  }

  /** One turn of the record loop in terms of those fields and the value behind them. */
  function Turn(head: Head, value: bytes, p: Progress, limits: PersistenceLimits): (Progress, bool) {
    if RecordChecksum(head.kind, head.flags, value) != head.crc then (p.(report := Rejected(p.report)), false)
    else
      var applied := ApplyRecord(p.out, head.kind, value, limits);
      if !applied.ok then (Progress(applied.out, Rejected(p.report), p.offset), false)
      else (Progress(applied.out, p.report.(recordsParsed := p.report.recordsParsed + 1),
                     p.offset + RECORD_HEADER_SIZE + head.length), true)
  }

  /** The record at an offset lies whole in the payload and within the limits. */
  predicate Whole(payload: bytes, o: nat, limits: PersistenceLimits)
    requires o + RECORD_HEADER_SIZE <= |payload|
  {
    HeadAt(payload, o).length <= limits.maxRecordBytes && o + RECORD_HEADER_SIZE + HeadAt(payload, o).length <= |payload|
  }

  function ValueAt(payload: bytes, o: nat, limits: PersistenceLimits): bytes
    requires o + RECORD_HEADER_SIZE <= |payload| && Whole(payload, o, limits)
  {
    payload[o + RECORD_HEADER_SIZE..o + RECORD_HEADER_SIZE + HeadAt(payload, o).length]
  }

  lemma TurnOfWhole(payload: bytes, p: Progress, limits: PersistenceLimits)
    requires p.offset + RECORD_HEADER_SIZE <= |payload|
    ensures Whole(payload, p.offset, limits) ==>
              ReadRecord(payload, p, limits) == Turn(HeadAt(payload, p.offset), ValueAt(payload, p.offset, limits), p, limits)
    ensures ReadRecord(payload, p, limits).1 ==> Whole(payload, p.offset, limits)
  {
    hide GetHead, HeadAt, ApplyRecord, RecordChecksum;
    HeadIsAt(payload, p.offset);
  }

  // ---- the reserved octets --------------------------------------------------------------------

  /** The same octets, but for the two reserved ones of the record at an offset. */
  predicate ButReserved(payload: bytes, other: bytes, o: nat) {
    |other| == |payload| && forall i :: 0 <= i < |payload| && i != o + 6 && i != o + 7 ==> other[i] == payload[i]
  }

  /** Whatever stands in the reserved octets of a record, the turn of the loop that reads the
      record goes the same way. */
  lemma ReservedOctetsUnseen(payload: bytes, other: bytes, p: Progress, limits: PersistenceLimits)
    requires p.offset + RECORD_HEADER_SIZE <= |payload| && ButReserved(payload, other, p.offset)
    ensures ReadRecord(other, p, limits) == ReadRecord(payload, p, limits)
  {
    hide GetHead, ApplyRecord, RecordChecksum, FromLittleEndian;
    var o := p.offset;
    HeadIsAt(payload, o);
    HeadIsAt(other, o);
    assert other[o..o + 4] == payload[o..o + 4] && other[o + 8..o + 12] == payload[o + 8..o + 12];
    var begin, length := o + RECORD_HEADER_SIZE, HeadAt(payload, o).length;
    if begin + length <= |payload| {
      assert other[begin..begin + length] == payload[begin..begin + length];
    }
  }

  /** A turn that goes on sees only the record it reads. */
  lemma ElsewhereUnseen(payload: bytes, other: bytes, p: Progress, limits: PersistenceLimits, m: nat)
    requires p.offset + RECORD_HEADER_SIZE <= m <= |payload| == |other| && payload[p.offset..m] == other[p.offset..m]
    requires ReadRecord(payload, p, limits).1 && ReadRecord(payload, p, limits).0.offset <= m
    ensures ReadRecord(other, p, limits) == ReadRecord(payload, p, limits)
  {
    hide ApplyRecord, RecordChecksum, FromLittleEndian, ReadRecord;
    var o := p.offset;
    TurnOfWhole(payload, p, limits);
    TurnOfWhole(other, p, limits);
    SliceInside(payload, other, o, m, o, o + 4);
    SliceInside(payload, other, o, m, o + 8, o + 12);
    SliceInside(payload, other, o, m, o + 4, o + 6);
    assert payload[o + 4..o + 6][0] == other[o + 4..o + 6][0] && payload[o + 4..o + 6][1] == other[o + 4..o + 6][1];
    SliceInside(payload, other, o, m, o + RECORD_HEADER_SIZE, o + RECORD_HEADER_SIZE + HeadAt(payload, o).length);
  }

  lemma SliceInside(a: bytes, b: bytes, o: nat, m: nat, i: nat, j: nat)
    requires o <= i <= j <= m <= |a| == |b| && a[o..m] == b[o..m]
    ensures a[i..j] == b[i..j]
  {
    forall k | i <= k < j
      ensures a[k] == b[k]
    {
      assert a[o..m][k - o] == a[k] && b[o..m][k - o] == b[k];
    }
  }

  /** Where records k and j lie in the payload. */
  lemma RecordsApart(x: Snapshot, limits: PersistenceLimits, j: nat, k: nat)
    requires Restorable(x, limits) && j < |SnapshotRecords(x)| && k < |SnapshotRecords(x)|
    ensures Boundary(x, j) + RECORD_HEADER_SIZE <= Boundary(x, j + 1) <= |SegmentPayload(x)|
    ensures j < k ==> Boundary(x, j + 1) <= Boundary(x, k)
    ensures k < j ==> Boundary(x, k) + RECORD_HEADER_SIZE <= Boundary(x, j)
  {
    hide SnapshotRecords, SnapshotShaped, Normal, Fits, SamplesReadable;
    var rs := SnapshotRecords(x);
    FirstBoundary(x);
    PayloadSizeSnoc(rs, j);
    PayloadSizeSnoc(rs, k);
    BoundariesAscend(rs, j + 1, |rs|);
    if j < k {
      BoundariesAscend(rs, j + 1, k);
    } else if k < j {
      BoundariesAscend(rs, k + 1, j);
    }
  }

  lemma NextBoundary(x: Snapshot, j: nat)
    requires SnapshotShaped(x) && j < |SnapshotRecords(x)|
    ensures Boundary(x, j + 1) == Boundary(x, j) + RecordSize(SnapshotRecords(x)[j])
  {
    hide SnapshotRecords, SnapshotShaped;
    PayloadSizeSnoc(SnapshotRecords(x), j);
  }

  lemma WholeTurn(x: Snapshot, limits: PersistenceLimits, j: nat, report: Report)
    requires Restorable(x, limits) && j < |SnapshotRecords(x)| && Boundary(x, j) + RECORD_HEADER_SIZE <= |SegmentPayload(x)|
    ensures ReadRecord(SegmentPayload(x), Mark(x, j, report), limits) == (Mark(x, j + 1, Counted(report, 1)), true)
  {
    hide SnapshotRecords, Recovered, ReadRecord, Normal, Fits, SamplesReadable, SnapshotShaped, Boundary, SegmentPayload, Reach, Mark;
    var p := SegmentPayload(x);
    assert p[..|p|] == p;
    RecordsApart(x, limits, j, j);
    NextBoundary(x, j);
    StepForward(x, limits, |p|, j, report);
  }

  lemma TurnDespiteReserved(x: Snapshot, limits: PersistenceLimits, k: nat, other: bytes, j: nat, report: Report)
    requires Restorable(x, limits) && j < |SnapshotRecords(x)| && k < |SnapshotRecords(x)|
    requires ButReserved(SegmentPayload(x), other, Boundary(x, k))
    ensures Boundary(x, j) + RECORD_HEADER_SIZE <= |other|
    ensures ReadRecord(other, Mark(x, j, report), limits) == (Mark(x, j + 1, Counted(report, 1)), true)
  {
    hide SnapshotRecords, Recovered, ReadRecord, Boundary, SegmentPayload, Normal, Fits, SamplesReadable, SnapshotShaped;
    var p, o, m := SegmentPayload(x), Boundary(x, j), Boundary(x, j + 1);
    RecordsApart(x, limits, j, k);
    WholeTurn(x, limits, j, report);
    if j == k {
      ReservedOctetsUnseen(p, other, Mark(x, j, report), limits);
    } else {
      assert forall i :: o <= i < m ==> other[i] == p[i];
      assert p[o..m] == other[o..m];
      ElsewhereUnseen(p, other, Mark(x, j, report), limits, m);
    }
  }

  lemma {:induction false} LoopDespiteReserved(x: Snapshot, limits: PersistenceLimits, k: nat, other: bytes, j: nat, report: Report)
    requires Restorable(x, limits) && j <= |SnapshotRecords(x)| && k < |SnapshotRecords(x)|
    requires ButReserved(SegmentPayload(x), other, Boundary(x, k)) && Boundary(x, j) <= |other|
    ensures ReadRecords(other, Mark(x, j, report), limits)
         == Mark(x, |SnapshotRecords(x)|, Counted(report, |SnapshotRecords(x)| - j))
    decreases |SnapshotRecords(x)| - j
  {
    hide SnapshotRecords, Recovered, ReadRecord, Boundary, SegmentPayload, Normal, Fits, SamplesReadable, SnapshotShaped, ButReserved;
    assert |other| == |SegmentPayload(x)| by { SameLength(SegmentPayload(x), other, Boundary(x, k)); }
    FirstBoundary(x);
    if j < |SnapshotRecords(x)| {
      RecordsApart(x, limits, j, k);
      TurnDespiteReserved(x, limits, k, other, j, report);
      LoopDespiteReserved(x, limits, k, other, j + 1, Counted(report, 1));
    }
  }

  lemma SameLength(payload: bytes, other: bytes, o: nat)
    requires ButReserved(payload, other, o)
    ensures |other| == |payload|
  {}

  /** Changing the reserved octets of a record costs nothing: every record is read, and the
      snapshot comes back; only the payload's checksum tells, so the segment is not clean. */
  lemma ReservedDamageHarmless(x: Snapshot, limits: PersistenceLimits, k: nat, other: bytes)
    requires Restorable(x, limits) && k < |SnapshotRecords(x)|
    requires ButReserved(SegmentPayload(x), other, Boundary(x, k)) && other != SegmentPayload(x)
    ensures (var d := DecodeSegment(SealedHeader(HeaderOf(x, limits)) + (x.runtimeId + other), limits);
             && d.status == Ok && d.out == x && !d.report.Clean()
             && d.report.recordsParsed == d.report.recordsDeclared == |SnapshotRecords(x)| && d.report.recordsRejected == 0)
  {
    hide SealedHeader, DecodeSegment, ReadRecords, HeaderOf, SnapshotRecords, Fits, Recovered, SnapshotShaped, Normal,
      SamplesReadable, SegmentPayload, Boundary, PayloadReport, HeaderAccepted, Report.Clean, Conclude, ButReserved;
    var h, p := HeaderOf(x, limits), SegmentPayload(x);
    SameLength(p, other, Boundary(x, k));
    FirstBoundary(x);
    DecodeUnderHeader(x, limits, other);
    LoopDespiteReserved(x, limits, k, other, 0, PayloadReport(other, h, HeaderAccepted(h)));
    RecoveredAll(x);
    RecordsApart(x, limits, k, k);
    ReservedChangesChecksum(p, other, Boundary(x, k));
    SegmentParts(x, limits);
    ReservedVerdict(x, other, h);
  }

  lemma ReservedChangesChecksum(p: bytes, other: bytes, o: nat)
    requires ButReserved(p, other, o) && other != p && o + RECORD_HEADER_SIZE <= |p|
    ensures Crc32c.Word(Crc32c.Checksum(other)) != Crc32c.Word(Crc32c.Checksum(p))
  {
    hide Crc32c.Checksum, Crc32c.Word;
    var a, b := p[o + 6..o + 8], other[o + 6..o + 8];
    assert p == p[..o + 6] + a + p[o + 8..];
    assert other == p[..o + 6] + b + p[o + 8..];
    Crc32c.BurstDetected(p[..o + 6], a, b, p[o + 8..]);
    if Crc32c.Word(Crc32c.Checksum(other)) == Crc32c.Word(Crc32c.Checksum(p)) {
      Crc32c.WordInjective(Crc32c.Checksum(other), Crc32c.Checksum(p));
    }
  }

  lemma ReservedVerdict(x: Snapshot, payload: bytes, h: Header)
    requires SnapshotShaped(x) && |payload| == h.payloadBytes == Boundary(x, |SnapshotRecords(x)|)
    requires Crc32c.Word(Crc32c.Checksum(payload)) != h.payloadCrc && h.recordCount == |SnapshotRecords(x)|
    ensures (var n := |SnapshotRecords(x)|;
             var p := Mark(x, n, Counted(PayloadReport(payload, h, HeaderAccepted(h)), n));
             var r := Conclude(p, |payload|, h.recordCount);
             !r.Clean() && r.recordsParsed == r.recordsDeclared == n && r.recordsRejected == 0)
  {
    hide SnapshotRecords, SnapshotShaped, Boundary, Recovered, Crc32c.Checksum, Crc32c.Word;
  }

  // ---- checksum, type and flags -----------------------------------------------------------------

  predicate ChangedWithin(payload: bytes, other: bytes, from: nat, to: nat) {
    |other| == |payload| && other != payload && forall i :: 0 <= i < |payload| && !(from <= i < to) ==> other[i] == payload[i]
  }

  /** Changed are the four checksum octets of the record at an offset, or its type and flags. */
  predicate HeadDamaged(payload: bytes, other: bytes, o: nat) {
    ChangedWithin(payload, other, o, o + 4) || ChangedWithin(payload, other, o + 4, o + 6)
  }

  lemma LittleEndianDiffers(a: bytes, b: bytes)
    requires |a| == |b| && a != b
    ensures FromLittleEndian(a) != FromLittleEndian(b)
  {
    FromLittleEndianInverse(a);
    FromLittleEndianInverse(b);
  }

  lemma PrefixParts(kind: u8, flags: u8, value: bytes)
    ensures PutPrefix(kind, flags, Cast32(|value|), []) + value
            == [] + [kind, flags] + (PutU16(0, PutU32(Cast32(|value|), [])) + value)
  {
    hide LittleEndian;
  }

  lemma PrefixChangesChecksum(kind: u8, flags: u8, kind': u8, flags': u8, value: bytes)
    requires (kind, flags) != (kind', flags')
    ensures RecordChecksum(kind, flags, value) != RecordChecksum(kind', flags', value)
  {
    hide Crc32c.Checksum, Crc32c.Word, PutPrefix;
    var rest := PutU16(0, PutU32(Cast32(|value|), [])) + value;
    var a, b := [kind, flags], [kind', flags'];
    assert a[0] == kind && b[0] == kind' && a[1] == flags && b[1] == flags';
    Crc32c.BurstDetected([], a, b, rest);
    PrefixParts(kind, flags, value);
    PrefixParts(kind', flags', value);
    if RecordChecksum(kind, flags, value) == RecordChecksum(kind', flags', value) {
      Crc32c.WordInjective(Crc32c.Checksum([] + a + rest), Crc32c.Checksum([] + b + rest));
    }
  }

  /** A record that would have been read is rejected, and the loop stops there. */
  lemma DamagedHeadStops(payload: bytes, other: bytes, p: Progress, limits: PersistenceLimits)
    requires p.offset + RECORD_HEADER_SIZE <= |payload| && HeadDamaged(payload, other, p.offset)
    requires Whole(payload, p.offset, limits)
    requires (var h := HeadAt(payload, p.offset); RecordChecksum(h.kind, h.flags, ValueAt(payload, p.offset, limits)) == h.crc)
    ensures ReadRecord(other, p, limits) == (p.(report := Rejected(p.report)), false)
  {
    hide ReadRecord, ApplyRecord, RecordChecksum, FromLittleEndian;
    var o := p.offset;
    TurnOfWhole(payload, p, limits);
    TurnOfWhole(other, p, limits);
    assert other[o + 8..o + 12] == payload[o + 8..o + 12];
    var h, g := HeadAt(payload, o), HeadAt(other, o);
    var begin := o + RECORD_HEADER_SIZE;
    assert other[begin..begin + h.length] == payload[begin..begin + h.length];
    if ChangedWithin(payload, other, o, o + 4) {
      assert other[o..o + 4] != payload[o..o + 4] by { DiffersWithin(payload, other, o, o + 4); }
      LittleEndianDiffers(payload[o..o + 4], other[o..o + 4]);
    } else {
      assert other[o + 4..o + 6] != payload[o + 4..o + 6] by { DiffersWithin(payload, other, o + 4, o + 6); }
      assert (h.kind, h.flags) != (g.kind, g.flags);
      assert other[o..o + 4] == payload[o..o + 4];
      PrefixChangesChecksum(h.kind, h.flags, g.kind, g.flags, ValueAt(payload, o, limits));
    }
  }

  lemma DiffersWithin(payload: bytes, other: bytes, from: nat, to: nat)
    requires ChangedWithin(payload, other, from, to) && from <= to <= |payload|
    ensures other[from..to] != payload[from..to]
  {
    if other[from..to] == payload[from..to] {
      forall i | 0 <= i < |payload|
        ensures other[i] == payload[i]
      {
        if from <= i < to {
          assert other[from..to][i - from] == payload[from..to][i - from];
        }
      }
    }
  }

  lemma AcceptedCarriesChecksum(payload: bytes, p: Progress, limits: PersistenceLimits)
    requires p.offset + RECORD_HEADER_SIZE <= |payload| && ReadRecord(payload, p, limits).1
    ensures Whole(payload, p.offset, limits)
    ensures (var h := HeadAt(payload, p.offset); RecordChecksum(h.kind, h.flags, ValueAt(payload, p.offset, limits)) == h.crc)
  {
    hide ReadRecord, ApplyRecord, RecordChecksum, FromLittleEndian;
    TurnOfWhole(payload, p, limits);
  }

  lemma LoopStopsAtHead(x: Snapshot, limits: PersistenceLimits, k: nat, other: bytes, report: Report)
    requires Restorable(x, limits) && k < |SnapshotRecords(x)| && HeadDamaged(SegmentPayload(x), other, Boundary(x, k))
    ensures ReadRecords(other, Mark(x, 0, report), limits) == Mark(x, k, Rejected(Counted(report, k)))
  {
    hide SnapshotRecords, Recovered, ReadRecord, Boundary, SegmentPayload, Normal, Fits, SamplesReadable, SnapshotShaped, Whole, HeadAt, ValueAt,
      RecordChecksum;
    var p, o := SegmentPayload(x), Boundary(x, k);
    RecordsApart(x, limits, k, k);
    FirstBoundary(x);
    assert other[..o] == p[..o];
    ComesToRecord(x, limits, other, 0, k, report);
    WholeTurn(x, limits, k, Counted(report, k));
    AcceptedCarriesChecksum(p, Mark(x, k, Counted(report, k)), limits);
    DamagedHeadStops(p, other, Mark(x, k, Counted(report, k)), limits);
  }

  /** Damage to the checksum octets of one record, or to its type and flags, loses that record and
      what follows it, and nothing that stands before it. */
  lemma DamagedHeadContained(x: Snapshot, limits: PersistenceLimits, k: nat, other: bytes)
    requires Restorable(x, limits) && k < |SnapshotRecords(x)| && HeadDamaged(SegmentPayload(x), other, Boundary(x, k))
    ensures (var d := DecodeSegment(SealedHeader(HeaderOf(x, limits)) + (x.runtimeId + other), limits);
             && d.status == Ok && d.out == Recovered(x, k) && !d.report.Clean()
             && d.report.recordsParsed == k && d.report.recordsRejected == 1)
  {
    hide SealedHeader, DecodeSegment, ReadRecords, HeaderOf, SnapshotRecords, Fits, Recovered, SnapshotShaped, Normal,
      SamplesReadable, SegmentPayload, Boundary, PayloadReport, HeaderAccepted, Report.Clean, Conclude;
    var h := HeaderOf(x, limits);
    FirstBoundary(x);
    DecodeUnderHeader(x, limits, other);
    LoopStopsAtHead(x, limits, k, other, PayloadReport(other, h, HeaderAccepted(h)));
    DamagedVerdict(x, k, other, h);
  }
}
