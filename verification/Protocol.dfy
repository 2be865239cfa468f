/** Framing of the observation transport: the image of one frame, the decoder,
    and the incremental reassembler with the loop a connection runs around it. */
module Protocol {
  import opened Wrappers
  import opened Bytes
  import Crc32c

  const FRAME_MAGIC := 0x514F4253
  const FRAME_VERSION := 1
  const FRAME_HEADER_BYTES := 16

  datatype FrameType = Hello | Welcome | Batch | BatchResult | StatusRequest | StatusReply | Bye | Error

  datatype Frame = Frame(kind: FrameType, flags: u8, payload: bytes)

  datatype TransportLimits = TransportLimits(
    maxFrameBytes: u64, maxConnections: u64, maxQueuedFrames: u64, maxConnectionBufferBytes: u64)
  {
    predicate Valid() {
      && maxFrameBytes > 0 && maxConnections > 0 && maxQueuedFrames > 0 && maxConnectionBufferBytes > 0
      && maxConnections <= 4096 && maxQueuedFrames <= 65536
    }
  }

  function Raw(t: FrameType): u8 {
    match t
    case Hello => 1 case Welcome => 2 case Batch => 3 case BatchResult => 4
    case StatusRequest => 5 case StatusReply => 6 case Bye => 7 case Error => 8
  }

  /** The frame type with a given octet, if there is one. */
  function TypeOf(raw: u8): (t: Option<FrameType>)
    ensures t.Some? <==> 1 <= raw <= 8
    ensures t.Some? ==> Raw(t.value) == raw
  {
    if raw == 1 then Some(Hello)
    else if raw == 2 then Some(Welcome)
    else if raw == 3 then Some(Batch)
    else if raw == 4 then Some(BatchResult)
    else if raw == 5 then Some(StatusRequest)
    else if raw == 6 then Some(StatusReply)
    else if raw == 7 then Some(Bye)
    else if raw == 8 then Some(Error)
    else None
  }

  // ---- one frame ------------------------------------------------------------------

  /** The length field holds 32 bits of the payload's size. */
  function LengthField(payload: bytes): u32 {
    |payload| % U32_LIMIT
  }

  /** The eight header octets that the checksum covers. */
  function Preamble(f: Frame): (r: bytes)
    ensures |r| == 8
  {
    LittleEndian(FRAME_VERSION, 2) + [Raw(f.kind), f.flags] + LittleEndian(LengthField(f.payload), 4)
  }

  function Sealing(preamble: bytes, payload: bytes): u32 {
    Crc32c.Word(Crc32c.Checksum(preamble + payload))
  }

  function Image(f: Frame): (r: bytes)
    ensures |r| == FRAME_HEADER_BYTES + |f.payload|
  {
    LittleEndian(FRAME_MAGIC, 4) + Preamble(f) + LittleEndian(Sealing(Preamble(f), f.payload), 4) + f.payload
  }

  /** What the octets at the front of a buffer amount to. */
  datatype Decoding = Incomplete | Complete(frame: Frame, consumed: nat) | Bad(code: ErrorCode)

  /** The little-endian number in n octets of a buffer. */
  function Field(s: bytes, at: nat, n: nat): nat
    requires at + n <= |s|
  {
    FromLittleEndian(s[at..at + n])
  }

  function Parse(s: bytes, limits: TransportLimits): Decoding {
    if !limits.Valid() then Bad(InvalidArgument)
    else if |s| < FRAME_HEADER_BYTES then Incomplete
    else if Field(s, 0, 4) != FRAME_MAGIC then Bad(IntegrityFailure)
    else if Field(s, 4, 2) != FRAME_VERSION then Bad(VersionMismatch)
    else if TypeOf(s[6]).None? then Bad(NotSupported)
    else
      var length := Field(s, 8, 4);
      if length > limits.maxFrameBytes then Bad(LimitExceeded)
      else if |s| < FRAME_HEADER_BYTES + length then Incomplete
      else
        var payload := s[FRAME_HEADER_BYTES..FRAME_HEADER_BYTES + length];
        if Sealing(s[4..12], payload) != Field(s, 12, 4) then Bad(IntegrityFailure)
        else Complete(Frame(TypeOf(s[6]).value, s[7], payload), FRAME_HEADER_BYTES + length)
  }

  /** One frame taken off the front of a buffer, if a whole one is there. */
  datatype Taken = Taken(status: Status, frame: Option<Frame>, rest: bytes)

  function Take(s: bytes, limits: TransportLimits): (t: Taken)
    ensures if t.frame.Some? then |t.rest| < |s| else t.rest == s
  {
    if s == [] then Taken(Ok, None, s)
    else
      match Parse(s, limits)
      case Incomplete => Taken(Ok, None, s)
      case Bad(code) => Taken(Failure(code), None, s)
      case Complete(f, n) => Taken(Ok, Some(f), s[n..])
  }

  /** What a whole stream amounts to: its frames, how decoding ended, what is left over. */
  datatype Deframed = Deframed(frames: seq<Frame>, status: Status, rest: bytes)

  function Deframe(s: bytes, limits: TransportLimits): Deframed
    decreases |s|
  {
    var t := Take(s, limits);
    if t.frame.None? then Deframed([], t.status, s)
    else
      var others := Deframe(t.rest, limits);
      others.(frames := [t.frame.value] + others.frames)
  }

  /** How a connection that received some chunks stands. Overrun: the buffer's bound
      refused a chunk. Rejected: what arrived is not a frame. */
  datatype Ending = Open | Rejected(code: ErrorCode) | Overrun

  datatype Outcome = Outcome(frames: seq<Frame>, ending: Ending, pending: bytes)

  function Session(pending: bytes, chunks: seq<bytes>, limits: TransportLimits): Outcome
    decreases |chunks|
  {
    if chunks == [] then Outcome([], Open, pending)
    else if |pending| + |chunks[0]| > limits.maxConnectionBufferBytes then Outcome([], Overrun, pending)
    else
      var d := Deframe(pending + chunks[0], limits);
      match d.status
      case Failure(code) => Outcome(d.frames, Rejected(code), d.rest)
      case Ok =>
        var later := Session(d.rest, chunks[1..], limits);
        later.(frames := d.frames + later.frames)
  }

  // ---- properties of the decoder ------------------------------------------------

  lemma ParseConsumes(s: bytes, limits: TransportLimits)
    requires Parse(s, limits).Complete?
    ensures FRAME_HEADER_BYTES <= Parse(s, limits).consumed <= |s|
  {}

  lemma {:induction false} RestIsShorter(s: bytes, limits: TransportLimits)
    ensures |Deframe(s, limits).rest| <= |s|
    decreases |s|
  {
    hide Parse;
    if Take(s, limits).frame.Some? {
      RestIsShorter(Take(s, limits).rest, limits);
    }
  }

  /** What follows a decided frame does not change the decision. */
  lemma ParseIsLocal(s: bytes, t: bytes, limits: TransportLimits)
    requires !Parse(s, limits).Incomplete?
    ensures Parse(s + t, limits) == Parse(s, limits)
  {
    hide FromLittleEndian, Sealing;
    if limits.Valid() {
      Within(s, t, 0, 4);
      Within(s, t, 4, 6);
      Within(s, t, 8, 12);
      Within(s, t, 4, 12);
      Within(s, t, 12, 16);
      var length := Field(s, 8, 4);
      if FRAME_HEADER_BYTES + length <= |s| {
        Within(s, t, FRAME_HEADER_BYTES, FRAME_HEADER_BYTES + length);
      }
    }
  }

  lemma Within(s: bytes, t: bytes, from: nat, to: nat)
    requires from <= to <= |s|
    ensures (s + t)[from..to] == s[from..to]
  {}

  lemma FieldsOfImage(f: Frame, tail: bytes)
    ensures (var s := Image(f) + tail;
      && s[..4] == s[0..4] == LittleEndian(FRAME_MAGIC, 4) && s[4..6] == LittleEndian(FRAME_VERSION, 2)
      && s[6] == Raw(f.kind) && s[7] == f.flags && s[8..12] == LittleEndian(LengthField(f.payload), 4)
      && s[4..12] == Preamble(f) && s[12..16] == LittleEndian(Sealing(Preamble(f), f.payload), 4)
      && s[16..16 + |f.payload|] == f.payload && s[16 + |f.payload|..] == tail)
  {
    hide LittleEndian, Sealing, LengthField;
  }

  /** A frame that was encoded is read back, and its octets taken off the stream. */
  lemma FrameRoundTrip(f: Frame, tail: bytes, limits: TransportLimits)
    requires limits.Valid() && |f.payload| <= limits.maxFrameBytes && |f.payload| < U32_LIMIT
    ensures Parse(Image(f) + tail, limits) == Complete(f, |Image(f)|)
    ensures (Image(f) + tail)[|Image(f)|..] == tail
  {
    hide LittleEndian, FromLittleEndian, Sealing, Image;
    PowerLimits();
    FieldsOfImage(f, tail);
    LittleEndianInverse(FRAME_MAGIC, 4);
    LittleEndianInverse(FRAME_VERSION, 2);
    LittleEndianInverse(|f.payload|, 4);
    LittleEndianInverse(Sealing(Preamble(f), f.payload), 4);
  }

  lemma LittleEndianOf(s: bytes, at: nat, n: nat)
    requires at + n <= |s|
    ensures LittleEndian(Field(s, at, n), n) == s[at..at + n]
  {
    FromLittleEndianInverse(s[at..at + n]);
  }

  lemma Pieces(s: bytes, n: nat)
    requires 16 <= n <= |s|
    ensures s[..n] == s[0..4] + (s[4..6] + [s[6], s[7]] + s[8..12]) + s[12..16] + s[16..n]
    ensures s[4..12] == s[4..6] + [s[6], s[7]] + s[8..12]
  {}

  /** The decoder accepts the images of admissible frames and nothing else. */
  lemma AcceptsExactlyImages(s: bytes, f: Frame, n: nat, limits: TransportLimits)
    ensures Parse(s, limits) == Complete(f, n) <==>
            && limits.Valid() && |f.payload| <= limits.maxFrameBytes && |f.payload| < U32_LIMIT
            && n == |Image(f)| && Image(f) <= s
  {
    hide LittleEndian, FromLittleEndian, Sealing, Image;
    if Parse(s, limits) == Complete(f, n) {
      PowerLimits();
      Pieces(s, n);
      LittleEndianOf(s, 0, 4);
      LittleEndianOf(s, 4, 2);
      LittleEndianOf(s, 8, 4);
      LittleEndianOf(s, 12, 4);
      ImageOfParts(f, s, n);
    }
    if limits.Valid() && |f.payload| <= limits.maxFrameBytes && |f.payload| < U32_LIMIT && Image(f) <= s {
      assert s == Image(f) + s[|Image(f)|..];
      FrameRoundTrip(f, s[|Image(f)|..], limits);
    }
  }

  lemma ImageOfParts(f: Frame, s: bytes, n: nat)
    requires n == 16 + |f.payload| <= |s| && |f.payload| < U32_LIMIT
    requires s[..n] == s[0..4] + (s[4..6] + [s[6], s[7]] + s[8..12]) + s[12..16] + s[16..n]
    requires s[0..4] == LittleEndian(FRAME_MAGIC, 4) && s[4..6] == LittleEndian(FRAME_VERSION, 2)
    requires s[6] == Raw(f.kind) && s[7] == f.flags && s[8..12] == LittleEndian(|f.payload|, 4)
    requires s[12..16] == LittleEndian(Sealing(s[4..6] + [s[6], s[7]] + s[8..12], f.payload), 4)
    requires s[16..n] == f.payload
    ensures s[..n] == Image(f)
  {
    hide LittleEndian, Sealing;
  }

  /** The size field of a payload of 2^32 octets or more wraps, so a frame survives
      exactly when its payload is shorter, whatever the configured limit. */
  lemma SurvivesIffLengthFits(f: Frame, limits: TransportLimits)
    requires limits.Valid() && |f.payload| <= limits.maxFrameBytes
    ensures Parse(Image(f), limits) == Complete(f, |Image(f)|) <==> |f.payload| < U32_LIMIT
  {
    hide Image, Parse;
    AcceptsExactlyImages(Image(f), f, |Image(f)|, limits);
  }

  // ---- properties of streams ------------------------------------------------------

  /** Decoding a longer stream resumes where decoding the shorter one stopped. */
  lemma {:induction false} DeframeConcat(s: bytes, t: bytes, limits: TransportLimits)
    ensures (var d := Deframe(s, limits);
      && (d.status.Failure? ==> Deframe(s + t, limits).frames == d.frames && Deframe(s + t, limits).status == d.status)
      && (d.status == Ok ==> (var later := Deframe(d.rest + t, limits);
            Deframe(s + t, limits) == later.(frames := d.frames + later.frames))))
    decreases |s|
  {
    hide Parse;
    if s != [] && !Parse(s, limits).Incomplete? {
      ParseIsLocal(s, t, limits);
      if Parse(s, limits).Complete? {
        ParseConsumes(s, limits);
        var n := Parse(s, limits).consumed;
        assert (s + t)[n..] == s[n..] + t;
        DeframeConcat(s[n..], t, limits);
        Associate(Parse(s, limits).frame, Deframe(s[n..], limits).frames,
                  Deframe(Deframe(s[n..], limits).rest + t, limits).frames);
      }
    } else {
      assert forall xs: seq<Frame> :: [] + xs == xs;
    }
  }

  lemma Associate(f: Frame, a: seq<Frame>, b: seq<Frame>)
    ensures [f] + (a + b) == ([f] + a) + b
  {}

  lemma {:induction false} RestIsStuck(s: bytes, limits: TransportLimits)
    requires Deframe(s, limits).status == Ok
    ensures Deframe(Deframe(s, limits).rest, limits) == Deframed([], Ok, Deframe(s, limits).rest)
    decreases |s|
  {
    hide Parse;
    if Take(s, limits).frame.Some? {
      RestIsStuck(Take(s, limits).rest, limits);
    }
  }

  /** However the stream is cut, the same frames come out in the same order, and
      the same error after the same frame, as long as no chunk is refused. */
  lemma {:induction false} ChunkingInvariance(pending: bytes, chunks: seq<bytes>, limits: TransportLimits)
    requires Deframe(pending, limits) == Deframed([], Ok, pending)
    requires Session(pending, chunks, limits).ending != Overrun
    ensures (var whole := Deframe(pending + Crc32c.Joined(chunks), limits);
             var cut := Session(pending, chunks, limits);
             && cut.frames == whole.frames
             && cut.ending == (match whole.status case Ok => Open case Failure(code) => Rejected(code))
             && (cut.ending == Open ==> cut.pending == whole.rest))
    decreases |chunks|
  {
    hide Take;
    if chunks == [] {
      assert pending + [] == pending;
    } else {
      var d := Deframe(pending + chunks[0], limits);
      var later := Crc32c.Joined(chunks[1..]);
      assert pending + (chunks[0] + later) == (pending + chunks[0]) + later;
      DeframeConcat(pending + chunks[0], later, limits);
      if d.status == Ok {
        RestIsStuck(pending + chunks[0], limits);
        ChunkingInvariance(d.rest, chunks[1..], limits);
      }
    }
  }

  /** Two cuttings of one stream cannot be told apart. */
  lemma SameStreamSameFrames(chunks: seq<bytes>, others: seq<bytes>, limits: TransportLimits)
    requires Crc32c.Joined(chunks) == Crc32c.Joined(others)
    requires Session([], chunks, limits).ending != Overrun && Session([], others, limits).ending != Overrun
    ensures Session([], chunks, limits).frames == Session([], others, limits).frames
    ensures Session([], chunks, limits).ending == Session([], others, limits).ending
  {
    ChunkingInvariance([], chunks, limits);
    ChunkingInvariance([], others, limits);
  }

  predicate Admissible(f: Frame, limits: TransportLimits) {
    |f.payload| <= limits.maxFrameBytes && |f.payload| < U32_LIMIT
  }

  function Images(fs: seq<Frame>): bytes {
    if fs == [] then [] else Image(fs[0]) + Images(fs[1..])
  }

  /** A stream of encoded frames is exactly those frames, followed by whatever follows. */
  lemma {:induction false} StreamOfFrames(fs: seq<Frame>, tail: bytes, limits: TransportLimits)
    requires limits.Valid() && forall f :: f in fs ==> Admissible(f, limits)
    ensures (var after := Deframe(tail, limits);
             Deframe(Images(fs) + tail, limits) == after.(frames := fs + after.frames))
    decreases |fs|
  {
    hide Image, Parse;
    if fs == [] {
      assert [] + tail == tail;
    } else {
      var rest := Images(fs[1..]) + tail;
      assert Admissible(fs[0], limits);
      assert Images(fs) + tail == Image(fs[0]) + rest;
      FrameRoundTrip(fs[0], rest, limits);
      StreamOfFrames(fs[1..], tail, limits);
      assert fs == [fs[0]] + fs[1..];
      Associate(fs[0], fs[1..], Deframe(tail, limits).frames);
    }
  }

  /** Sent as frames and received in any pieces that fit the buffer: what arrives is what was sent. */
  lemma Delivery(fs: seq<Frame>, chunks: seq<bytes>, limits: TransportLimits)
    requires limits.Valid() && (forall f :: f in fs ==> Admissible(f, limits))
    requires Crc32c.Joined(chunks) == Images(fs) && Session([], chunks, limits).ending != Overrun
    ensures Session([], chunks, limits) == Outcome(fs, Open, [])
  {
    hide Parse;
    ChunkingInvariance([], chunks, limits);
    StreamOfFrames(fs, [], limits);
    assert Images(fs) + [] == Images(fs) && fs + [] == fs && [] + Images(fs) == Images(fs);
  }

  lemma StuckIsShort(s: bytes, limits: TransportLimits)
    requires limits.Valid() && Deframe(s, limits) == Deframed([], Ok, s)
    ensures |s| < FRAME_HEADER_BYTES + limits.maxFrameBytes
  {
    hide FromLittleEndian, Sealing;
  }

  /** A buffer with room for one frame short of an octet, and one more chunk, refuses nothing. */
  lemma {:induction false} RoomForOneFrameSuffices(pending: bytes, chunks: seq<bytes>, limits: TransportLimits, largest: nat)
    requires limits.Valid() && Deframe(pending, limits) == Deframed([], Ok, pending)
    requires forall c :: c in chunks ==> |c| <= largest
    requires FRAME_HEADER_BYTES + limits.maxFrameBytes - 1 + largest <= limits.maxConnectionBufferBytes
    ensures Session(pending, chunks, limits).ending != Overrun
    decreases |chunks|
  {
    hide Deframe;
    StuckIsShort(pending, limits);
    if chunks != [] {
      var d := Deframe(pending + chunks[0], limits);
      if d.status == Ok {
        RestIsStuck(pending + chunks[0], limits);
        RoomForOneFrameSuffices(d.rest, chunks[1..], limits, largest);
      }
    }
  }

  /** The damaged octets lie within one part of a frame, and not in its length field. */
  predicate DamageWindow(from: nat, to: nat) {
    to <= 4 || (4 <= from && to <= 8) || (12 <= from && to <= 16) || 16 <= from
  }

  /** The octets under the checksum. */
  function Covered(s: bytes): bytes
    requires |s| >= FRAME_HEADER_BYTES
  {
    s[4..12] + s[16..]
  }

  predicate Sealed(s: bytes)
    requires |s| >= FRAME_HEADER_BYTES
  {
    s[0..4] == LittleEndian(FRAME_MAGIC, 4) && Crc32c.Word(Crc32c.Checksum(Covered(s))) == Field(s, 12, 4)
  }

  lemma AcrossMiddle(before: bytes, a: bytes, after: bytes, i: nat, j: nat)
    requires i <= |before| && |before| + |a| <= j <= |before| + |a| + |after|
    ensures (before + a + after)[i..j] == before[i..] + a + after[..j - |before| - |a|]
  {}

  lemma PastMiddle(before: bytes, a: bytes, after: bytes, i: nat)
    requires |before| + |a| <= i <= |before| + |a| + |after|
    ensures (before + a + after)[i..] == after[i - |before| - |a|..]
  {}

  lemma CoveredIs(before: bytes, a: bytes, after: bytes) returns (p: bytes, q: bytes)
    requires |before| + |a| + |after| >= FRAME_HEADER_BYTES
    requires (4 <= |before| && |before| + |a| <= 8) || 16 <= |before|
    ensures p == (if |before| >= 16 then before[4..12] + before[16..] else before[4..])
    ensures q == (if |before| >= 16 then after
                  else after[..12 - |before| - |a|] + after[16 - |before| - |a|..])
    ensures Covered(before + a + after) == p + a + q
  {
    var s, to := before + a + after, |before| + |a|;
    if |before| < 16 {
      p, q := before[4..], after[..12 - to] + after[16 - to..];
      AcrossMiddle(before, a, after, 4, 12);
      PastMiddle(before, a, after, 16);
      assert p + a + after[..12 - to] + after[16 - to..] == p + a + q;
    } else {
      p, q := before[4..12] + before[16..], after;
      Within(before, a, 4, 12);
      Within(before + a, after, 4, 12);
      AcrossMiddle(before, a, after, 16, |s|);
      assert s[16..|s|] == s[16..] && after[..|after|] == after;
      assert before[4..12] + (before[16..] + a + after) == p + a + q;
    }
  }

  lemma DamageUnseals(before: bytes, a: bytes, b: bytes, after: bytes)
    requires |a| == |b| <= 4 && a != b && DamageWindow(|before|, |before| + |a|)
    requires |before| + |a| + |after| >= FRAME_HEADER_BYTES
    requires Sealed(before + a + after)
    ensures !Sealed(before + b + after)
  {
    hide LittleEndian, FromLittleEndian, Crc32c.Checksum, Crc32c.Word;
    var s, t := before + a + after, before + b + after;
    var start, to := |before|, |before| + |a|;
    var k :| 0 <= k < |a| && a[k] != b[k];
    if to <= 4 {
      assert s[0..4][start + k] == a[k] && t[0..4][start + k] == b[k];
    } else if 12 <= start && to <= 16 {
      assert Covered(s) == Covered(t);
      assert s[12..16][start - 12 + k] == a[k] && t[12..16][start - 12 + k] == b[k];
      LittleEndianOf(s, 12, 4);
      LittleEndianOf(t, 12, 4);
    } else {
      assert s[12..16] == t[12..16];
      var p, q := CoveredIs(before, a, after);
      p, q := CoveredIs(before, b, after);
      Crc32c.BurstDetected(p, a, b, q);
      if Crc32c.Word(Crc32c.Checksum(Covered(s))) == Crc32c.Word(Crc32c.Checksum(Covered(t))) {
        Crc32c.WordInjective(Crc32c.Checksum(Covered(s)), Crc32c.Checksum(Covered(t)));
      }
    }
  }

  lemma CompleteIsSealed(s: bytes, limits: TransportLimits)
    requires Parse(s, limits).Complete? && Parse(s, limits).consumed == |s|
    ensures Sealed(s)
  {
    hide LittleEndian, FromLittleEndian, Crc32c.Checksum, Crc32c.Word;
    LittleEndianOf(s, 0, 4);
    assert s[16..|s|] == s[16..];
  }

  /** A frame with up to four consecutive octets changed, outside its length field, is
      refused, whatever follows: it is neither delivered nor waited for. */
  lemma DamagedFrameRefused(f: Frame, before: bytes, a: bytes, b: bytes, after: bytes, tail: bytes, limits: TransportLimits)
    requires limits.Valid() && Admissible(f, limits) && before + a + after == Image(f)
    requires |a| == |b| <= 4 && a != b && DamageWindow(|before|, |before| + |a|)
    ensures Parse(before + b + after + tail, limits).Bad?
  {
    hide LittleEndian, FromLittleEndian, Image, Sealed, Sealing;
    var s := before + b + after;
    assert Image(f) + [] == Image(f);
    FrameRoundTrip(f, [], limits);
    CompleteIsSealed(Image(f), limits);
    DamageUnseals(before, a, b, after);
    assert s[8..12] == Image(f)[8..12];
    if Parse(s, limits).Complete? {
      CompleteIsSealed(s, limits);
    }
    ParseIsLocal(s, tail, limits);
  }

  // ---- the code -------------------------------------------------------------------

  method Store(out: array<byte>, at: nat, value: nat, n: nat)
    requires at + n <= out.Length
    modifies out
    ensures out[..at + n] == old(out[..at]) + LittleEndian(value, n)
  {
    var image := OctetsOf(value, n);
    for index := 0 to n
      invariant out[..at + index] == old(out[..at]) + image[..index]
    {
      out[at + index] := image[index];
    }
    assert image[..n] == image;
  }

  method EncodeFrame(frame: Frame, limits: TransportLimits) returns (status: Status, out: bytes)
    ensures status == Ok <==> limits.Valid() && |frame.payload| <= limits.maxFrameBytes
    ensures status == Ok ==> out == Image(frame)
  {
    hide LittleEndian, Crc32c.Run, Crc32c.Word, Raw, LengthField, Sealing;
    if !limits.Valid() {
      return Failure(InvalidArgument), [];
    }
    if |frame.payload| > limits.maxFrameBytes {
      return Failure(LimitExceeded), [];
    }
    var header := new byte[FRAME_HEADER_BYTES](_ => 0);
    ghost var magic := LittleEndian(FRAME_MAGIC, 4);
    Store(header, 0, FRAME_MAGIC, 4);
    assert header[..4] == magic;
    Store(header, 4, FRAME_VERSION, 2);
    header[6] := Raw(frame.kind);
    assert header[..7] == header[..6] + [Raw(frame.kind)];
    header[7] := frame.flags;
    assert header[..8] == header[..7] + [frame.flags];
    Store(header, 8, LengthField(frame.payload), 4);
    assert header[..12] == magic + Preamble(frame);
    assert header[4..12] == header[..12][4..] == Preamble(frame);
    var crc := SealingOf(header[4..12], frame.payload);
    Store(header, 12, crc, 4);
    assert header[..] == header[..16];
    return Ok, header[..] + frame.payload;
  }

  /** The incremental checksum, fed the header's part and then the payload. */
  method SealingOf(preamble: bytes, payload: bytes) returns (crc: u32)
    ensures crc == Sealing(preamble, payload)
  {
    hide Crc32c.Run, Crc32c.Word;
    var c := new Crc32c.Incremental();
    c.Update(preamble);
    c.Update(payload);
    Crc32c.RunConcat(Crc32c.INITIAL, preamble, payload);
    var sum := c.Value();
    crc := Crc32c.Word(sum);
  }

  method DecodeFrame(buffer: bytes, limits: TransportLimits) returns (result: Decoding)
    ensures result == Parse(buffer, limits)
  {
    hide Crc32c.Run, Crc32c.Word, FromLittleEndian;
    if !limits.Valid() {
      return Bad(InvalidArgument);
    }
    if |buffer| < FRAME_HEADER_BYTES {
      return Incomplete;
    }
    var magic := ValueOf(buffer[0..4]);
    if magic != FRAME_MAGIC {
      return Bad(IntegrityFailure);
    }
    var version := ValueOf(buffer[4..6]);
    if version != FRAME_VERSION {
      return Bad(VersionMismatch);
    }
    var kind := TypeOf(buffer[6]);
    if kind.None? {
      return Bad(NotSupported);
    }
    var length := ValueOf(buffer[8..12]);
    if length > limits.maxFrameBytes {
      return Bad(LimitExceeded);
    }
    var total := FRAME_HEADER_BYTES + length;
    if |buffer| < total {
      return Incomplete;
    }
    var stored := ValueOf(buffer[12..16]);
    var crc := SealingOf(buffer[4..12], buffer[FRAME_HEADER_BYTES..total]);
    if crc != stored {
      return Bad(IntegrityFailure);
    }
    return Complete(Frame(kind.value, buffer[7], buffer[FRAME_HEADER_BYTES..total]), total);
  }

  /** Reassembles frames from octets as they arrive. */
  class FrameReader {
    const limits: TransportLimits
    var buffer: bytes

    constructor (limits: TransportLimits)
      ensures this.limits == limits && buffer == []
    {
      this.limits, this.buffer := limits, [];
    }

    method Append(data: bytes) returns (status: Status)
      modifies this
      ensures status == (if old(|buffer|) + |data| <= limits.maxConnectionBufferBytes then Ok else Failure(LimitExceeded))
      ensures buffer == if status == Ok then old(buffer) + data else old(buffer)
    {
      if |buffer| + |data| > limits.maxConnectionBufferBytes {
        return Failure(LimitExceeded);
      }
      buffer := buffer + data;
      return Ok;
    }

    /** The next whole frame, taken off the front of the buffer. */
    method Next() returns (status: Status, frame: Option<Frame>)
      modifies this
      ensures Taken(status, frame, buffer) == Take(old(buffer), limits)
    {
      hide Parse;
      if buffer == [] {
        return Ok, None;
      }
      var decoded := DecodeFrame(buffer, limits);
      match decoded
      case Bad(code) =>
        return Failure(code), None;
      case Incomplete =>
        return Ok, None;
      case Complete(f, n) =>
        ParseConsumes(buffer, limits);
        buffer := buffer[n..];
        return Ok, Some(f);
    }

    /** Every frame that is whole, up to the first failure. */
    method Drain() returns (status: Status, frames: seq<Frame>)
      modifies this
      ensures Deframed(frames, status, buffer) == Deframe(old(buffer), limits)
    {
      hide Take;
      frames := [];
      while true
        invariant (var d := Deframe(buffer, limits);
                   d.(frames := frames + d.frames) == Deframe(old(buffer), limits))
        decreases |buffer|
      {
        ghost var before := buffer;
        var step, frame := Next();
        if frame.None? {
          assert frames + [] == frames;
          return step, frames;
        }
        frames := frames + [frame.value];
        assert frames + Deframe(buffer, limits).frames == frames[..|frames| - 1] + Deframe(before, limits).frames;
      }
    }
  }

  /** The receive loop of a connection, fed what each receive call delivers. */
  method Serve(chunks: seq<bytes>, limits: TransportLimits) returns (frames: seq<Frame>, ending: Ending)
    ensures frames == Session([], chunks, limits).frames
    ensures ending == Session([], chunks, limits).ending
  {
    hide Deframe;
    var reader := new FrameReader(limits);
    frames := [];
    assert chunks[0..] == chunks;
    for i := 0 to |chunks|
      invariant reader.limits == limits && |reader.buffer| <= limits.maxConnectionBufferBytes
      invariant (var s := Session(reader.buffer, chunks[i..], limits);
                 s.(frames := frames + s.frames) == Session([], chunks, limits))
    {
      assert chunks[i..][0] == chunks[i] && chunks[i..][1..] == chunks[i + 1..];
      var appended := reader.Append(chunks[i]);
      if appended != Ok {
        assert frames + [] == frames;
        return frames, Overrun;
      }
      RestIsShorter(reader.buffer, limits);
      var status, drained := reader.Drain();
      ghost var later := Session(reader.buffer, chunks[i + 1..], limits).frames;
      assert (frames + drained) + later == frames + (drained + later);
      frames := frames + drained;
      if status != Ok {
        return frames, Rejected(status.code);
      }
    }
    assert frames + [] == frames;
    return frames, Open;
  }
}
