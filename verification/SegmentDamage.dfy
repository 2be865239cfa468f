/** What changed octets do to a segment: in the header it is refused, in the
    payload it is reported, in the runtime identifier it has no effect. */
module SegmentDamage {
  import opened Wrappers
  import opened Bytes
  import opened Identity
  import opened SegmentSpec
  import opened SegmentLayout
  import opened SegmentProofs
  import opened SegmentTheorems
  import Crc32c

  // ---- the header ---------------------------------------------------------------

  /** The stored checksum field. */
  function StoredCrc(s: bytes): nat
    requires |s| >= HEADER_SIZE
  {
    FromLittleEndian(s[16..20])
  }

  lemma GetU32At(s: bytes)
    requires |s| >= 4
    ensures GetU32(s) == Got(FromLittleEndian(s[..4]), s[4..])
  {
    PowerLimits();
  }

  /** The header of any 80 octets can be read, and its checksum field is where it should be. */
  lemma HeaderOfAny(s: bytes)
    requires |s| >= HEADER_SIZE
    ensures GetHeader(s[8..]).Got? && GetHeader(s[8..]).value.1 == StoredCrc(s)
  {
    hide FromLittleEndian, GetU32, GetHeaderBack;
    var t := s[8..];
    GetU32At(t);
    GetU32At(t[4..]);
    GetU32At(t[4..][4..]);
    assert t[4..][4..][..4] == s[16..20];
    HeaderBackReadable(GetU32(t).value, GetU32(t[4..]).value, t[4..][4..][4..]);
  }

  lemma HeaderBackReadable(formatVersion: u32, headerSize: u32, s: bytes)
    requires |s| >= 60
    ensures GetHeaderBack(formatVersion, headerSize, s).Got?
  {
    hide FromLittleEndian, ToI64;
  }

  lemma {:induction false} FromLittleEndianInjective(s: bytes, t: bytes)
    requires |s| == |t| && FromLittleEndian(s) == FromLittleEndian(t)
    ensures s == t
  {
    FromLittleEndianInverse(s);
    FromLittleEndianInverse(t);
  }

  /** A segment whose stored header checksum is not that of its header is refused. */
  lemma WrongChecksumRefused(s: bytes, limits: PersistenceLimits)
    requires |s| >= HEADER_SIZE && Crc32c.Word(Crc32c.Checksum(ZeroedHeader(s))) != StoredCrc(s)
    ensures DecodeSegment(s, limits).status.Failure?
    ensures DecodeSegment(s, limits).out == DEFAULT_SNAPSHOT
  {
    hide GetHeader, ZeroedHeader, DecodePayload, Crc32c.Word, Crc32c.Checksum, StoredCrc;
    HeaderOfAny(s);
  }

  /** An accepted header carries its own checksum. */
  lemma SealedChecksum(h: Header, tail: bytes)
    ensures (var s := SealedHeader(h) + tail;
             Crc32c.Word(Crc32c.Checksum(ZeroedHeader(s))) == StoredCrc(s))
  {
    hide HeaderImage, ZeroedHeader, GetHeader, Crc32c.Checksum, Crc32c.Word, StoredCrc;
    HeaderRoundTrip(h, HeaderChecksum(h), tail);
    HeaderOfAny(SealedHeader(h) + tail);
  }

  /** The damaged window lies inside the header and does not straddle its checksum field. */
  predicate HeaderWindow(from: nat, to: nat) {
    from <= to <= HEADER_SIZE && (to <= 16 || 20 <= from || (16 <= from && to <= 20))
  }

  lemma ZeroedOutside(before: bytes, a: bytes, b: bytes, after: bytes)
    requires |a| == |b| && HeaderWindow(|before|, |before| + |a|)
    requires |before| + |a| + |after| >= HEADER_SIZE
    requires |before| + |a| <= 16 || 20 <= |before|
    ensures StoredCrc(before + a + after) == StoredCrc(before + b + after)
    ensures exists p: bytes, q: bytes :: ZeroedHeader(before + a + after) == p + a + q
                                      && ZeroedHeader(before + b + after) == p + b + q
  {
    hide FromLittleEndian;
    var s, t := before + a + after, before + b + after;
    assert s[16..20] == t[16..20];
    var zero: bytes := [0, 0, 0, 0];
    if |before| + |a| <= 16 {
      var q := s[|before| + |a|..16] + zero + s[20..HEADER_SIZE];
      assert s[|before| + |a|..16] == t[|before| + |a|..16] && s[20..HEADER_SIZE] == t[20..HEADER_SIZE];
      assert ZeroedHeader(s) == before + a + q && ZeroedHeader(t) == before + b + q;
    } else {
      var p := s[..16] + zero + s[20..|before|];
      var q := s[|before| + |a|..HEADER_SIZE];
      assert s[..16] == t[..16] && s[20..|before|] == t[20..|before|] && q == t[|before| + |a|..HEADER_SIZE];
      assert ZeroedHeader(s) == p + a + q && ZeroedHeader(t) == p + b + q;
    }
  }

  /** Up to four changed octets in the header, clear of the edges of its checksum
      field, are always refused. */
  lemma HeaderDamageRefused(before: bytes, a: bytes, b: bytes, after: bytes, limits: PersistenceLimits)
    requires |a| == |b| <= 4 && a != b && HeaderWindow(|before|, |before| + |a|)
    requires |before| + |a| + |after| >= HEADER_SIZE
    requires (var s := before + a + after; Crc32c.Word(Crc32c.Checksum(ZeroedHeader(s))) == StoredCrc(s))
    ensures DecodeSegment(before + b + after, limits).status.Failure?
  {
    hide Crc32c.Checksum, Crc32c.Word, ZeroedHeader, DecodeSegment;
    var s, t := before + a + after, before + b + after;
    if |before| + |a| <= 16 || 20 <= |before| {
      ZeroedOutside(before, a, b, after);
      var p: bytes, q: bytes :| ZeroedHeader(s) == p + a + q && ZeroedHeader(t) == p + b + q;
      Crc32c.BurstDetected(p, a, b, q);
      if Crc32c.Word(Crc32c.Checksum(ZeroedHeader(t))) == StoredCrc(t) {
        Crc32c.WordInjective(Crc32c.Checksum(ZeroedHeader(s)), Crc32c.Checksum(ZeroedHeader(t)));
      }
    } else {
      InsideField(before, a, b, after);
    }
    WrongChecksumRefused(t, limits);
  }

  lemma InsideField(before: bytes, a: bytes, b: bytes, after: bytes)
    requires |a| == |b| && a != b && 16 <= |before| && |before| + |a| <= 20
    requires |before| + |a| + |after| >= HEADER_SIZE
    ensures ZeroedHeader(before + a + after) == ZeroedHeader(before + b + after)
    ensures StoredCrc(before + a + after) != StoredCrc(before + b + after)
  {
    var s, t := before + a + after, before + b + after;
    assert s[..16] == t[..16] && s[20..HEADER_SIZE] == t[20..HEADER_SIZE];
    var k :| 0 <= k < |a| && a[k] != b[k];
    var i := |before| - 16 + k;
    assert s[16..20][i] == a[k] && t[16..20][i] == b[k];
    if StoredCrc(s) == StoredCrc(t) {
      FromLittleEndianInjective(s[16..20], t[16..20]);
    }
  }

  lemma HeaderSizeAt(s: bytes)
    requires |s| >= HEADER_SIZE
    ensures GetHeader(s[8..]).Got? && GetHeader(s[8..]).value.0.headerSize == FromLittleEndian(s[12..16])
  {
    hide FromLittleEndian, GetU32, GetHeaderBack;
    var t := s[8..];
    GetU32At(t);
    GetU32At(t[4..]);
    GetU32At(t[4..][4..]);
    assert t[4..][..4] == s[12..16];
    BackKeepsSize(GetU32(t).value, GetU32(t[4..]).value, t[4..][4..][4..]);
  }

  lemma BackKeepsSize(formatVersion: u32, headerSize: u32, s: bytes)
    requires |s| >= 60
    ensures GetHeaderBack(formatVersion, headerSize, s).Got?
    ensures GetHeaderBack(formatVersion, headerSize, s).value.headerSize == headerSize
  {
    hide FromLittleEndian, ToI64;
  }

  lemma AcceptedHeader(s: bytes, limits: PersistenceLimits)
    requires |s| >= HEADER_SIZE && DecodeSegment(s, limits).status == Ok
    ensures FromLittleEndian(s[12..16]) == HEADER_SIZE && Crc32c.Word(Crc32c.Checksum(ZeroedHeader(s))) == StoredCrc(s)
  {
    hide GetHeader, ZeroedHeader, DecodePayload, Crc32c.Word, Crc32c.Checksum, StoredCrc, FromLittleEndian;
    HeaderOfAny(s);
    HeaderSizeAt(s);
  }

  lemma WrongSizeRefused(s: bytes, limits: PersistenceLimits)
    requires |s| >= HEADER_SIZE && FromLittleEndian(s[12..16]) != HEADER_SIZE
    ensures DecodeSegment(s, limits).status.Failure?
  {
    hide GetHeader, ZeroedHeader, DecodePayload, Crc32c.Word, Crc32c.Checksum, FromLittleEndian;
    HeaderSizeAt(s);
  }

  /** Nor is damage across the left edge of the checksum field ever accepted: the header size
      stands in front of it. */
  lemma LeftEdgeRefused(before: bytes, a: bytes, b: bytes, after: bytes, limits: PersistenceLimits)
    requires |a| == |b| <= 4 && a != b && |before| < 16 < |before| + |a|
    requires |before| + |a| + |after| >= HEADER_SIZE && DecodeSegment(before + a + after, limits).status == Ok
    ensures DecodeSegment(before + b + after, limits).status.Failure?
  {
    hide Crc32c.Checksum, Crc32c.Word, ZeroedHeader, DecodeSegment, FromLittleEndian;
    var s, t, n := before + a + after, before + b + after, 16 - |before|;
    AcceptedHeader(s, limits);
    if s[12..16] == t[12..16] {
      assert forall i :: 0 <= i < n ==> s[12..16][|before| + i - 12] == a[i] && t[12..16][|before| + i - 12] == b[i];
      assert a == a[..n] + a[n..] && b == a[..n] + b[n..];
      assert s == (before + a[..n]) + a[n..] + after && t == (before + a[..n]) + b[n..] + after;
      HeaderDamageRefused(before + a[..n], a[n..], b[n..], after, limits);
    } else {
      if FromLittleEndian(t[12..16]) == FromLittleEndian(s[12..16]) {
        FromLittleEndianInjective(t[12..16], s[12..16]);
      }
      WrongSizeRefused(t, limits);
    }
  }

  // ---- the payload ----------------------------------------------------------------

  lemma {:induction false} DamageIsSticky(payload: bytes, p: Progress, limits: PersistenceLimits)
    requires p.offset <= |payload| && p.report.integrityFailed
    ensures ReadRecords(payload, p, limits).report.integrityFailed
    decreases |payload| - p.offset
  {
    hide GetHead, ApplyRecord, RecordChecksum;
    if p.offset + RECORD_HEADER_SIZE <= |payload| {
      var (next, more) := ReadRecord(payload, p, limits);
      if more {
        DamageIsSticky(payload, next, limits);
      }
    }
  }

  /** A payload that does not match the header's checksum is decoded, and never reported clean. */
  lemma PayloadMismatchReported(h: Header, rid: bytes, payload: bytes, limits: PersistenceLimits)
    requires limits.Valid() && h.formatVersion == FORMAT_VERSION && h.headerSize == HEADER_SIZE
    requires |rid| == h.runtimeIdLength <= MAX_RUNTIME_ID_BYTES && |payload| == h.payloadBytes
    requires Crc32c.Word(Crc32c.Checksum(payload)) != h.payloadCrc
    ensures (var d := DecodeSegment(SealedHeader(h) + (rid + payload), limits);
             d.status == Ok && !d.report.Clean() && d.report.integrityFailed)
  {
    hide SealedHeader, DecodeSegment, ReadRecords, Crc32c.Checksum, Crc32c.Word, UsablePayload, InitialSnapshot;
    SealedHeaderAccepted(h, rid + payload, limits);
    PayloadLocated(h, rid, payload);
    var s := SealedHeader(h) + (rid + payload);
    var report := PayloadReport(payload, h, HeaderAccepted(h));
    DamageIsSticky(payload, Progress(InitialSnapshot(s, h), report, 0), limits);
  }

  /** Up to four consecutive changed octets in the payload are never reported clean. */
  lemma PayloadDamageReported(x: Snapshot, limits: PersistenceLimits, before: bytes, a: bytes, b: bytes, after: bytes)
    requires SnapshotShaped(x) && Fits(x, limits)
    requires |a| == |b| <= 4 && a != b && before + a + after == SegmentPayload(x)
    ensures (var d := DecodeSegment(SealedHeader(HeaderOf(x, limits)) + (x.runtimeId + (before + b + after)), limits);
             d.status == Ok && !d.report.Clean())
  {
    hide SealedHeader, DecodeSegment, Crc32c.Checksum, Crc32c.Word, SegmentPayload, HeaderOf, SnapshotRecords, Fits;
    SegmentParts(x, limits);
    Crc32c.BurstDetected(before, a, b, after);
    if Crc32c.Word(Crc32c.Checksum(before + b + after)) == HeaderOf(x, limits).payloadCrc {
      Crc32c.WordInjective(Crc32c.Checksum(before + a + after), Crc32c.Checksum(before + b + after));
    }
    PayloadMismatchReported(HeaderOf(x, limits), x.runtimeId, before + b + after, limits);
  }

  // ---- the runtime identifier ----------------------------------------------------------

  /** The identifier in front of the payload is replaced by the one in the first record. */
  lemma SessionOverwrites(x: Snapshot, limits: PersistenceLimits, rid: bytes)
    requires SnapshotShaped(x) && Restorable(x, limits) && x.runtimeId != []
    ensures ApplyRecord(Recovered(x, 0).(runtimeId := rid), SESSION_HEADER, PutSession(x, []), limits)
         == ApplyRecord(Recovered(x, 0), SESSION_HEADER, PutSession(x, []), limits)
  {
    hide PutSession, GetSession, SnapshotRecords, NormalQueue, NormalSource, NormalEvent, NormalMetadata;
    RecordCount(x);
    RecordAt(x, 0);
    RecordFits(x, 0, limits);
    SessionRoundTrip(x, limits.maxRecordBytes);
  }

  /** A turn of the loop depends on the snapshot only through the record it applies. */
  lemma TurnDependsOnApply(payload: bytes, p: Progress, other: Snapshot, limits: PersistenceLimits, r: Record, tail: bytes)
    requires p.offset + RECORD_HEADER_SIZE <= |payload| && payload[p.offset..] == PutRecord(r, tail)
    requires |r.value| < U32_LIMIT
    requires ApplyRecord(p.out, r.kind, r.value, limits) == ApplyRecord(other, r.kind, r.value, limits)
    requires ReadRecord(payload, p, limits).1
    ensures ReadRecord(payload, p.(out := other), limits) == ReadRecord(payload, p, limits)
  {
    hide GetHead, ApplyRecord, RecordChecksum, PutHead;
    HeadRoundTrip(r, r.value + tail);
    HeadThen(r, r.value + tail);
    var begin := p.offset + RECORD_HEADER_SIZE;
    assert payload[begin..begin + |r.value|] == payload[p.offset..][RECORD_HEADER_SIZE..][..|r.value|];
    assert (r.value + tail)[..|r.value|] == r.value;
  }

  lemma LoopIgnoresIdentifier(x: Snapshot, limits: PersistenceLimits, rid: bytes, report: Report)
    requires SnapshotShaped(x) && Boundary(x, 0) == 0 && Restorable(x, limits) && x.runtimeId != []
    ensures ReadRecords(SegmentPayload(x), Progress(Recovered(x, 0).(runtimeId := rid), report, 0), limits)
         == ReadRecords(SegmentPayload(x), Progress(Recovered(x, 0), report, 0), limits)
  {
    hide SnapshotRecords, Recovered, SnapshotShaped, ApplyRecord, GetHead, RecordChecksum, PutSession,
      Normal, Fits, SamplesReadable, ReadRecord;
    var rs := SnapshotRecords(x);
    var p := SegmentPayload(x);
    RecordCount(x);
    RecordAt(x, 0);
    RecordFits(x, 0, limits);
    assert p[..|p|] == p && rs[..0] == [] && p[0..] == p;
    PayloadSizeSnoc(rs, 0);
    BoundaryIsWithin(rs, 1);
    WholeRecordStep(x, limits, |p|, 0, report);
    SessionOverwrites(x, limits, rid);
    TurnDependsOnApply(p, Progress(Recovered(x, 0), report, 0), Recovered(x, 0).(runtimeId := rid), limits,
                       rs[0], Payload(rs[1..], []));
  }

  lemma {:induction false} BoundaryIsWithin(rs: seq<Record>, k: nat)
    requires k <= |rs|
    ensures PayloadSize(rs[..k]) <= |Payload(rs, [])|
  {
    hide PutRecord;
    PayloadFrom(rs, k);
  }

  /** Whatever the identifier octets are changed to, the segment decodes as before. */
  lemma IdentifierDamageHarmless(x: Snapshot, limits: PersistenceLimits, rid: bytes)
    requires SnapshotShaped(x) && Restorable(x, limits) && |rid| == |x.runtimeId|
    ensures DecodeSegment(SealedHeader(HeaderOf(x, limits)) + (rid + SegmentPayload(x)), limits)
         == DecodeSegment(SegmentOf(x, limits), limits)
  {
    hide SealedHeader, DecodeSegment, SegmentPayload, HeaderOf, SnapshotRecords, Fits, Recovered, ReadRecords,
      UsablePayload, InitialSnapshot, Normal, SegmentOf, SnapshotShaped, SamplesReadable;
    SegmentParts(x, limits);
    var h := HeaderOf(x, limits);
    var p := SegmentPayload(x);
    assert p[..|p|] == p;
    assert SegmentOf(x, limits) == SealedHeader(h) + (x.runtimeId + p);
    if x.runtimeId == [] {
      assert rid == x.runtimeId;
    } else {
      SealedHeaderAccepted(h, rid + p, limits);
      SealedHeaderAccepted(h, x.runtimeId + p, limits);
      PayloadStart(x, limits, |p|, rid);
      PayloadStart(x, limits, |p|, x.runtimeId);
      KeepsRuntimeId(x);
      FirstBoundary(x);
      LoopIgnoresIdentifier(x, limits, rid, PayloadReport(p, h, HeaderAccepted(h)));
    }
  }

  // ---- one octet anywhere ------------------------------------------------------------------

  lemma CutAround(s: bytes, i: nat)
    requires i < |s|
    ensures s == s[..i] + [s[i]] + s[i + 1..]
  {}

  lemma HeaderOctet(h: Header, s: bytes, i: nat, v: byte, limits: PersistenceLimits)
    requires i < HEADER_SIZE <= |s| && v != s[i] && s[..HEADER_SIZE] == SealedHeader(h)
    ensures DecodeSegment(s[i := v], limits).status.Failure?
  {
    hide SealedHeader, DecodeSegment, ZeroedHeader, StoredCrc, Crc32c.Checksum, Crc32c.Word;
    CutAround(s, i);
    assert s == s[..HEADER_SIZE] + s[HEADER_SIZE..];
    SealedChecksum(h, s[HEADER_SIZE..]);
    assert s[i := v] == s[..i] + [v] + s[i + 1..];
    HeaderDamageRefused(s[..i], [s[i]], [v], s[i + 1..], limits);
  }

  lemma PayloadOctet(x: Snapshot, limits: PersistenceLimits, i: nat, v: byte)
    requires SnapshotShaped(x) && Fits(x, limits)
    requires i < |SegmentPayload(x)| && v != SegmentPayload(x)[i]
    ensures (var d := DecodeSegment(SealedHeader(HeaderOf(x, limits)) + (x.runtimeId + SegmentPayload(x)[i := v]), limits);
             d.status == Ok && !d.report.Clean())
  {
    hide SealedHeader, DecodeSegment, SegmentPayload, HeaderOf, Fits, SnapshotShaped;
    var p := SegmentPayload(x);
    CutAround(p, i);
    assert p[i := v] == p[..i] + [v] + p[i + 1..];
    PayloadDamageReported(x, limits, p[..i], [p[i]], [v], p[i + 1..]);
  }

  lemma UpdateInThird(a: bytes, b: bytes, c: bytes, i: nat, v: byte)
    requires i < |a + b + c|
    ensures i < |a| ==> (a + b + c)[i := v][|a|..] == b + c && (a + b + c)[i := v][..|a|] == a[i := v]
    ensures |a| <= i < |a + b| ==> (a + b + c)[i := v] == a + (b[i - |a| := v] + c)
    ensures |a + b| <= i ==> (a + b + c)[i := v] == a + (b + c[i - |a + b| := v])
  {}

  lemma InThird(a: bytes, b: bytes, c: bytes, i: nat)
    requires i < |a + b + c|
    ensures (a + b + c)[..|a|] == a
    ensures |a + b| <= i ==> (a + b + c)[i] == c[i - |a + b|]
  {}

  lemma SegmentIsSum(x: Snapshot, limits: PersistenceLimits)
    requires SnapshotShaped(x) && Fits(x, limits)
    ensures SegmentOf(x, limits) == SealedHeader(HeaderOf(x, limits)) + x.runtimeId + SegmentPayload(x)
  {
    hide SealedHeader, SegmentPayload, HeaderOf, SegmentOf, Fits, SnapshotShaped, SnapshotRecords;
    SegmentParts(x, limits);
  }

  lemma ThirdUpdated(whole: bytes, a: bytes, b: bytes, c: bytes, i: nat, v: byte)
    requires whole == a + b + c && |a| + |b| <= i < |whole|
    ensures var j := i - |a| - |b|; j < |c| && c[j] == whole[i] && whole[i := v] == a + (b + c[j := v])
  {
    UpdateInThird(a, b, c, i, v);
    InThird(a, b, c, i);
  }

  lemma ChangedInHeader(x: Snapshot, limits: PersistenceLimits, i: nat, v: byte)
    requires SnapshotShaped(x) && Fits(x, limits) && i < HEADER_SIZE
    requires i < |SegmentOf(x, limits)| && v != SegmentOf(x, limits)[i]
    ensures DecodeSegment(SegmentOf(x, limits)[i := v], limits).status.Failure?
  {
    hide SealedHeader, DecodeSegment, SegmentPayload, HeaderOf, SegmentOf, Fits, SnapshotShaped;
    SegmentParts(x, limits);
    InThird(SealedHeader(HeaderOf(x, limits)), x.runtimeId, SegmentPayload(x), i);
    HeaderOctet(HeaderOf(x, limits), SegmentOf(x, limits), i, v, limits);
  }

  lemma ChangedInIdentifier(x: Snapshot, limits: PersistenceLimits, i: nat, v: byte)
    requires SnapshotShaped(x) && Restorable(x, limits) && HEADER_SIZE <= i < HEADER_SIZE + |x.runtimeId|
    requires i < |SegmentOf(x, limits)|
    ensures DecodeSegment(SegmentOf(x, limits)[i := v], limits) == DecodeSegment(SegmentOf(x, limits), limits)
  {
    hide SealedHeader, DecodeSegment, SegmentPayload, HeaderOf, SegmentOf, Fits, SnapshotShaped, Normal, SamplesReadable;
    SegmentParts(x, limits);
    UpdateInThird(SealedHeader(HeaderOf(x, limits)), x.runtimeId, SegmentPayload(x), i, v);
    IdentifierDamageHarmless(x, limits, x.runtimeId[i - HEADER_SIZE := v]);
  }

  lemma PayloadUpdated(x: Snapshot, limits: PersistenceLimits, i: nat, v: byte)
    requires SnapshotShaped(x) && Fits(x, limits) && HEADER_SIZE + |x.runtimeId| <= i < |SegmentOf(x, limits)|
    ensures (var j := i - HEADER_SIZE - |x.runtimeId|;
             && j < |SegmentPayload(x)| && SegmentPayload(x)[j] == SegmentOf(x, limits)[i]
             && SegmentOf(x, limits)[i := v]
                == SealedHeader(HeaderOf(x, limits)) + (x.runtimeId + SegmentPayload(x)[j := v]))
  {
    hide SealedHeader, SegmentPayload, HeaderOf, SegmentOf, Fits, SnapshotShaped;
    SegmentIsSum(x, limits);
    ThirdUpdated(SegmentOf(x, limits), SealedHeader(HeaderOf(x, limits)), x.runtimeId, SegmentPayload(x), i, v);
  }

  lemma ChangedInPayload(x: Snapshot, limits: PersistenceLimits, i: nat, v: byte)
    requires SnapshotShaped(x) && Fits(x, limits) && HEADER_SIZE + |x.runtimeId| <= i
    requires i < |SegmentOf(x, limits)| && v != SegmentOf(x, limits)[i]
    ensures (var d := DecodeSegment(SegmentOf(x, limits)[i := v], limits);
             d.status == Ok && !d.report.Clean())
  {
    hide SealedHeader, DecodeSegment, SegmentPayload, HeaderOf, SegmentOf, Fits, SnapshotShaped, Report.Clean;
    PayloadUpdated(x, limits, i, v);
    PayloadOctet(x, limits, i - HEADER_SIZE - |x.runtimeId|, v);
  }

  /** Any one octet of a segment changed: refused, decoded as if intact, or reported,
      according to where it lies. */
  lemma OneOctetChanged(x: Snapshot, limits: PersistenceLimits, i: nat, v: byte)
    requires SnapshotShaped(x) && Restorable(x, limits)
    requires i < |SegmentOf(x, limits)| && v != SegmentOf(x, limits)[i]
    ensures (var d := DecodeSegment(SegmentOf(x, limits)[i := v], limits);
             var start := HEADER_SIZE + |x.runtimeId|;
             && (i < HEADER_SIZE ==> d.status.Failure?)
             && (HEADER_SIZE <= i < start ==> d == DecodeSegment(SegmentOf(x, limits), limits))
             && (start <= i ==> d.status == Ok && !d.report.Clean()))
  {
    hide DecodeSegment, SegmentOf, Fits, SnapshotShaped, Normal, SamplesReadable, Report.Clean;
    if i < HEADER_SIZE {
      ChangedInHeader(x, limits, i, v);
    } else if i < HEADER_SIZE + |x.runtimeId| {
      ChangedInIdentifier(x, limits, i, v);
    } else {
      ChangedInPayload(x, limits, i, v);
    }
  }

  // ---- containment: what stands before the damage survives ----------------------------------

  /** A turn that goes on looks no further than where it leaves off. */
  lemma TurnIsLocal(payload: bytes, other: bytes, m: nat, p: Progress, limits: PersistenceLimits)
    requires p.offset + RECORD_HEADER_SIZE <= m <= |payload| && m <= |other| && payload[..m] == other[..m]
    requires ReadRecord(payload, p, limits).1 && ReadRecord(payload, p, limits).0.offset <= m
    ensures ReadRecord(other, p, limits) == ReadRecord(payload, p, limits)
  {
    hide ApplyRecord, RecordChecksum, FromLittleEndian;
    HeadIsLocal(payload[p.offset..], other[p.offset..], payload[..m][p.offset..]);
    assert payload[p.offset..][..m - p.offset] == payload[..m][p.offset..];
    assert other[p.offset..][..m - p.offset] == other[..m][p.offset..];
    var head := GetHead(payload[p.offset..]).value;
    var begin := p.offset + RECORD_HEADER_SIZE;
    SliceOfPrefix(payload, m, begin, begin + head.length);
    SliceOfPrefix(other, m, begin, begin + head.length);
  }

  lemma SliceOfPrefix(s: bytes, m: nat, from: nat, to: nat)
    requires from <= to <= m <= |s|
    ensures s[from..to] == s[..m][from..to]
  {}

  /** The twelve octets of a record header determine what is read from them. */
  lemma HeadIsLocal(s: bytes, t: bytes, common: bytes)
    requires RECORD_HEADER_SIZE <= |common| && common <= s && common <= t
    ensures GetHead(s).Got? && GetHead(t).Got? && GetHead(s).value == GetHead(t).value
  {
    hide FromLittleEndian;
    assert s[..4] == common[..4] && t[..4] == common[..4];
    assert s[8..12] == common[8..12] && t[8..12] == common[8..12];
    HeadFields(s);
    HeadFields(t);
  }

  lemma HeadFields(s: bytes)
    requires |s| >= RECORD_HEADER_SIZE
    ensures GetHead(s).Got?
    ensures GetHead(s).value == Head(FromLittleEndian(s[..4]), s[4], s[5], FromLittleEndian(s[8..12]))
  {
    hide FromLittleEndian, GetU32, GetU16;
    GetU32At(s);
    var t := s[4..][1..][1..];
    GetU16Skips(t);
    GetU32At(t[2..]);
    assert t[2..][..4] == s[8..12];
  }

  lemma GetU16Skips(s: bytes)
    requires |s| >= 2
    ensures GetU16(s).Got? && GetU16(s).rest == s[2..]
  {}

  /** Over any payload that agrees up to record k, the loop comes to record k. */
  lemma {:induction false} ComesToRecord(x: Snapshot, limits: PersistenceLimits, payload: bytes, j: nat, k: nat, report: Report)
    requires SnapshotShaped(x) && j <= k <= |SnapshotRecords(x)| && Restorable(x, limits)
    requires Boundary(x, j) <= Boundary(x, k) <= |payload| && Boundary(x, k) <= |SegmentPayload(x)|
    requires payload[..Boundary(x, k)] == SegmentPayload(x)[..Boundary(x, k)]
    ensures ReadRecords(payload, Mark(x, j, report), limits)
         == ReadRecords(payload, Mark(x, k, Counted(report, k - j)), limits)
    decreases k - j
  {
    hide SnapshotRecords, Recovered, SnapshotShaped, Restorable, ReadRecord, Payload, PayloadSize;
    if j < k {
      var rs := SnapshotRecords(x);
      var p := SegmentPayload(x);
      PayloadSizeSnoc(rs, j);
      BoundariesAscend(rs, j + 1, k);
      assert p[..|p|] == p;
      WholeRecordStep(x, limits, |p|, j, report);
      TurnIsLocal(p, payload, Boundary(x, k), Mark(x, j, report), limits);
      ComesToRecord(x, limits, payload, j + 1, k, Counted(report, 1));
    }
  }

  lemma {:induction false} BoundariesAscend(rs: seq<Record>, j: nat, k: nat)
    requires j <= k <= |rs|
    ensures PayloadSize(rs[..j]) <= PayloadSize(rs[..k])
    decreases k - j
  {
    if j < k {
      PayloadSizeSnoc(rs, j);
      BoundariesAscend(rs, j + 1, k);
    }
  }

  /** A record whose value was changed within four octets fails its own checksum. */
  lemma ChangedValueFails(r: Record, before: bytes, a: bytes, b: bytes, after: bytes)
    requires r.value == before + a + after && |a| == |b| <= 4 && a != b
    ensures RecordChecksum(r.kind, 0, before + b + after) != RecordChecksum(r.kind, 0, r.value)
  {
    hide Crc32c.Checksum, Crc32c.Word, PutPrefix;
    var prefix := PutPrefix(r.kind, 0, Cast32(|r.value|), []);
    Crc32c.BurstDetected(prefix + before, a, b, after);
    assert prefix + (before + a + after) == prefix + before + a + after;
    assert prefix + (before + b + after) == prefix + before + b + after;
    if RecordChecksum(r.kind, 0, before + b + after) == RecordChecksum(r.kind, 0, r.value) {
      Crc32c.WordInjective(Crc32c.Checksum(prefix + r.value), Crc32c.Checksum(prefix + (before + b + after)));
    }
  }

  lemma ChangedValueStops(payload: bytes, p: Progress, r: Record, value: bytes, tail: bytes, limits: PersistenceLimits)
    requires p.offset + RECORD_HEADER_SIZE <= |payload| && payload[p.offset..] == PutHead(r, value + tail)
    requires |value| == |r.value| < U32_LIMIT && |r.value| <= limits.maxRecordBytes
    requires RecordChecksum(r.kind, 0, value) != RecordChecksum(r.kind, 0, r.value)
    ensures ReadRecord(payload, p, limits) == (p.(report := Rejected(p.report)), false)
  {
    hide GetHead, ApplyRecord, RecordChecksum, PutHead;
    HeadRoundTrip(r, value + tail);
    HeadThen(r, value + tail);
    var begin := p.offset + RECORD_HEADER_SIZE;
    assert payload[begin..begin + |value|] == payload[p.offset..][RECORD_HEADER_SIZE..][..|value|];
    assert (value + tail)[..|value|] == value;
  }

  /** The payload with the value of record k replaced. */
  function WithValue(x: Snapshot, k: nat, value: bytes): bytes
    requires SnapshotShaped(x) && k < |SnapshotRecords(x)| && Boundary(x, k) <= |SegmentPayload(x)|
  {
    SegmentPayload(x)[..Boundary(x, k)]
    + PutHead(SnapshotRecords(x)[k], value + Payload(SnapshotRecords(x)[k + 1..], []))
  }

  lemma WithOwnValue(x: Snapshot, k: nat)
    requires SnapshotShaped(x) && k < |SnapshotRecords(x)|
    ensures Boundary(x, k) <= |SegmentPayload(x)|
    ensures WithValue(x, k, SnapshotRecords(x)[k].value) == SegmentPayload(x)
    ensures forall v: bytes :: |v| == |SnapshotRecords(x)[k].value| ==> |WithValue(x, k, v)| == |SegmentPayload(x)|
  {
    hide PutHead, SnapshotRecords;
    var rs := SnapshotRecords(x);
    PayloadFrom(rs, k);
    assert rs[k..][0] == rs[k] && rs[k..][1..] == rs[k + 1..];
    var p := SegmentPayload(x);
    assert p == p[..Boundary(x, k)] + p[Boundary(x, k)..];
  }

  lemma LoopStopsAtDamage(x: Snapshot, limits: PersistenceLimits, k: nat, report: Report,
                          before: bytes, a: bytes, b: bytes, after: bytes)
    requires SnapshotShaped(x) && k < |SnapshotRecords(x)| && Boundary(x, 0) == 0 && Restorable(x, limits)
    requires SnapshotRecords(x)[k].value == before + a + after && |a| == |b| <= 4 && a != b
    requires Boundary(x, k) <= |SegmentPayload(x)|
    ensures ReadRecords(WithValue(x, k, before + b + after), Mark(x, 0, report), limits)
         == Mark(x, k, Rejected(Counted(report, k)))
  {
    hide SnapshotRecords, Recovered, SnapshotShaped, ReadRecord, Payload, PutHead, RecordChecksum,
      Normal, Fits, SamplesReadable;
    var r := SnapshotRecords(x)[k];
    var payload := WithValue(x, k, before + b + after);
    assert payload[..Boundary(x, k)] == SegmentPayload(x)[..Boundary(x, k)];
    ComesToRecord(x, limits, payload, 0, k, report);
    RecordFits(x, k, limits);
    ChangedValueFails(r, before, a, b, after);
    ChangedValueStops(payload, Mark(x, k, Counted(report, k)), r, before + b + after,
                      Payload(SnapshotRecords(x)[k + 1..], []), limits);
  }

  lemma StartOfPayload(x: Snapshot, limits: PersistenceLimits, payload: bytes)
    requires SnapshotShaped(x) && Fits(x, limits) && |payload| == |SegmentPayload(x)|
    ensures (var h := HeaderOf(x, limits);
             var s := SealedHeader(h) + (x.runtimeId + payload);
             && |s| >= HEADER_SIZE + h.runtimeIdLength
             && UsablePayload(s, h) == payload && InitialSnapshot(s, h) == Recovered(x, 0))
  {
    hide SealedHeader, SnapshotRecords, SnapshotShaped, SegmentPayload, Fits, HeaderOf, UsablePayload, Recovered;
    SegmentParts(x, limits);
    RecoveredNone(x);
    PayloadLocated(HeaderOf(x, limits), x.runtimeId, payload);
  }

  /** Decoding any payload of the declared size under an intact header. */
  lemma DecodeUnderHeader(x: Snapshot, limits: PersistenceLimits, payload: bytes)
    requires SnapshotShaped(x) && Boundary(x, 0) == 0 && Fits(x, limits) && |payload| == |SegmentPayload(x)|
    ensures (var h := HeaderOf(x, limits);
             var p := ReadRecords(payload, Mark(x, 0, PayloadReport(payload, h, HeaderAccepted(h))), limits);
             DecodeSegment(SealedHeader(h) + (x.runtimeId + payload), limits)
             == Decoded(Ok, p.out, Conclude(p, |payload|, h.recordCount)))
  {
    hide SealedHeader, DecodeSegment, ReadRecords, UsablePayload, InitialSnapshot, HeaderOf, SnapshotRecords,
      Fits, Recovered, SnapshotShaped, SegmentPayload, Boundary, PayloadReport, HeaderAccepted, Conclude;
    SegmentParts(x, limits);
    SealedHeaderAccepted(HeaderOf(x, limits), x.runtimeId + payload, limits);
    StartOfPayload(x, limits, payload);
  }

  lemma DamagedVerdict(x: Snapshot, k: nat, payload: bytes, h: Header)
    requires SnapshotShaped(x) && k < |SnapshotRecords(x)|
    ensures (var p := Mark(x, k, Rejected(Counted(PayloadReport(payload, h, HeaderAccepted(h)), k)));
             var r := Conclude(p, |payload|, h.recordCount);
             !r.Clean() && r.recordsParsed == k && r.recordsRejected == 1)
  {
    hide SnapshotRecords, SnapshotShaped, Boundary, Recovered, Crc32c.Checksum, Crc32c.Word;
  }

  /** Conservative recovery: damage within four octets of one record's value loses
      that record and what follows it, and nothing that stands before it. */
  lemma DamagedRecordContained(x: Snapshot, limits: PersistenceLimits, k: nat,
                               before: bytes, a: bytes, b: bytes, after: bytes)
    requires SnapshotShaped(x) && k < |SnapshotRecords(x)| && Restorable(x, limits)
    requires SnapshotRecords(x)[k].value == before + a + after && |a| == |b| <= 4 && a != b
    requires Boundary(x, k) <= |SegmentPayload(x)|
    ensures (var s := SealedHeader(HeaderOf(x, limits)) + (x.runtimeId + WithValue(x, k, before + b + after));
             var d := DecodeSegment(s, limits);
             && d.status == Ok && d.out == Recovered(x, k) && !d.report.Clean()
             && d.report.recordsParsed == k && d.report.recordsRejected == 1)
  {
    hide SealedHeader, DecodeSegment, ReadRecords, HeaderOf, SnapshotRecords,
      Fits, Recovered, SnapshotShaped, Normal, SamplesReadable, SegmentPayload, WithValue, Boundary,
      PayloadReport, HeaderAccepted, Report.Clean, Conclude;
    var h := HeaderOf(x, limits);
    var payload := WithValue(x, k, before + b + after);
    WithOwnValue(x, k);
    FirstBoundary(x);
    DecodeUnderHeader(x, limits, payload);
    LoopStopsAtDamage(x, limits, k, PayloadReport(payload, h, HeaderAccepted(h)), before, a, b, after);
    DamagedVerdict(x, k, payload, h);
  }
}
