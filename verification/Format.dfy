/** The segment encoder and decoder as the runtime executes them: a bounded
    writer, a cursor that fails once and stays failed, and the loops around them.
    Every method is tied to the grammar in SegmentSpec and SegmentLayout. */
module Format {
  import opened Wrappers
  import opened Bytes
  import opened Identity
  import opened SegmentSpec
  import opened SegmentLayout
  import opened SegmentProofs
  import opened SegmentTheorems
  import Crc32c

  // ---- the bounded writer ------------------------------------------------------------

  /** Appends to a buffer until the bound would be passed, then refuses for good. */
  class ByteWriter {
    var out: bytes
    var maxBytes: u64
    var ok: bool
    // Everything that was asked for, whether or not it still fitted.
    ghost var full: bytes
    // A string longer than its own bound was asked for.
    ghost var oversize: bool

    ghost predicate Valid()
      reads this
    {
      && (ok <==> |full| <= maxBytes && !oversize)
      && (ok ==> out == full)
    }

    constructor (initial: bytes, maxBytes: u64)
      requires |initial| <= maxBytes
      ensures Valid() && full == initial && !oversize && this.maxBytes == maxBytes
    {
      this.out, this.maxBytes, this.ok := initial, maxBytes, true;
      this.full, this.oversize := initial, false;
    }

    method Raw(data: bytes) returns (done: bool)
      requires Valid()
      modifies this
      ensures Valid() && done == ok && maxBytes == old(maxBytes) && oversize == old(oversize)
      ensures full == old(full) + data && out == (if ok then old(out) + data else old(out))
    {
      full := full + data;
      if !ok {
        return false;
      }
      if |out| + |data| > U64_MAX || |out| + |data| > maxBytes {
        ok := false;
        return false;
      }
      out := out + data;
      return true;
    }

    method U8(v: u8) returns (done: bool)
      requires Valid()
      modifies this
      ensures Valid() && done == ok && maxBytes == old(maxBytes) && oversize == old(oversize)
      ensures forall tail: bytes :: full + tail == old(full) + PutU8(v, tail)
    {
      done := Raw([v]);
      Reassociate(old(full), [v]);
    }

    method U16(v: u16) returns (done: bool)
      requires Valid()
      modifies this
      ensures Valid() && done == ok && maxBytes == old(maxBytes) && oversize == old(oversize)
      ensures forall tail: bytes :: full + tail == old(full) + PutU16(v, tail)
    {
      var image := OctetsOf(v, 2);
      done := Raw(image);
      Reassociate(old(full), image);
    }

    method U32(v: u32) returns (done: bool)
      requires Valid()
      modifies this
      ensures Valid() && done == ok && maxBytes == old(maxBytes) && oversize == old(oversize)
      ensures forall tail: bytes :: full + tail == old(full) + PutU32(v, tail)
      ensures old(out) <= out
    {
      var image := OctetsOf(v, 4);
      done := Raw(image);
      Reassociate(old(full), image);
    }

    method U64(v: u64) returns (done: bool)
      requires Valid()
      modifies this
      ensures Valid() && done == ok && maxBytes == old(maxBytes) && oversize == old(oversize)
      ensures forall tail: bytes :: full + tail == old(full) + PutU64(v, tail)
    {
      var image := OctetsOf(v, 8);
      done := Raw(image);
      Reassociate(old(full), image);
    }

    method I64(v: i64) returns (done: bool)
      requires Valid()
      modifies this
      ensures Valid() && done == ok && maxBytes == old(maxBytes) && oversize == old(oversize)
      ensures forall tail: bytes :: full + tail == old(full) + PutI64(v, tail)
    {
      done := U64(ToU64(v));
    }

    /** The length goes first; a string over its bound spoils the writer. */
    method String(v: bytes, maxLength: u32) returns (done: bool)
      requires Valid()
      modifies this
      ensures Valid() && done == ok && maxBytes == old(maxBytes)
      ensures oversize <==> old(oversize) || |v| > maxLength
      ensures forall tail: bytes :: full + tail == old(full) + PutString(v, tail)
    {
      if |v| > maxLength {
        ok, oversize := false, true;
        full := full + LittleEndian(Cast32(|v|), 4) + v;
        Reassociate(old(full), LittleEndian(Cast32(|v|), 4) + v);
        assert full == old(full) + (LittleEndian(Cast32(|v|), 4) + v);
        StringImage(v);
        return false;
      }
      done := U32(|v|);
      ghost var middle := full;
      if !done {
        full := full + v;
        Reassociate(middle, v);
        return false;
      }
      done := Raw(v);
      Reassociate(middle, v);
    }

    method NameId(v: Name) returns (done: bool)
      requires Valid()
      modifies this
      ensures Valid() && done == ok && maxBytes == old(maxBytes)
      ensures oversize <==> old(oversize) || |v| > MAX_IDENTITY_LENGTH
      ensures forall tail: bytes :: full + tail == old(full) + PutString(v, tail)
    {
      done := String(v, MAX_IDENTITY_LENGTH);
    }

    method OptionalU16(v: Option<u16>)
      requires Valid()
      modifies this
      ensures Valid() && maxBytes == old(maxBytes) && oversize == old(oversize)
      ensures forall tail: bytes :: full + tail == old(full) + PutOptionalU16(v, tail)
    {
      hide PutU8, PutU16;
      var _ := U8(if v.Some? then 1 else 0);
      if v.Some? {
        var _ := U16(v.value);
      }
    }

    method OptionalU64(v: Option<u64>)
      requires Valid()
      modifies this
      ensures Valid() && maxBytes == old(maxBytes) && oversize == old(oversize)
      ensures forall tail: bytes :: full + tail == old(full) + PutOptionalU64(v, tail)
    {
      hide PutU8, PutU64;
      var _ := U8(if v.Some? then 1 else 0);
      if v.Some? {
        var _ := U64(v.value);
      }
    }

    method OptionalName(v: Option<Name>)
      requires Valid()
      modifies this
      ensures Valid() && maxBytes == old(maxBytes)
      ensures NormalClass(v) ==> oversize == old(oversize)
      ensures forall tail: bytes :: full + tail == old(full) + PutOptionalName(v, tail)
    {
      hide PutU8, PutString;
      var _ := U8(if v.Some? then 1 else 0);
      if v.Some? {
        var _ := NameId(v.value);
      }
    }

    /** How many fields are set, then which. */
    method SampleBitmap(mask: FieldMask) returns (done: bool)
      requires Valid()
      modifies this
      ensures Valid() && done == ok && maxBytes == old(maxBytes) && oversize == old(oversize)
      ensures done ==> forall tail: bytes :: full + tail == old(full) + PutBitmap(mask, tail)
      ensures |full| <= |old(full)| + |PutBitmap(mask, [])|
    {
      hide PutU8, PutU64;
      var count: u8 := 0;
      var index := 0;
      while index < FIELD_COUNT
        invariant 0 <= index <= FIELD_COUNT
        invariant count + |FieldList(mask, index)| == |FieldList(mask, 0)|
      {
        if index in mask {
          count := count + 1;
        }
        index := index + 1;
      }
      done := U8(count);
      assert full + [] == full;
      if done {
        done := ListFields(mask);
      }
    }

    /** The set fields, one octet each. */
    method ListFields(mask: FieldMask) returns (done: bool)
      requires Valid() && ok
      modifies this
      ensures Valid() && done == ok && maxBytes == old(maxBytes) && oversize == old(oversize)
      ensures done ==> forall tail: bytes :: full + tail == old(full) + (FieldList(mask, 0) + tail)
      ensures |full| <= |old(full)| + |FieldList(mask, 0)|
    {
      hide FieldList;
      ghost var start := full;
      for index := 0 to FIELD_COUNT
        invariant Valid() && ok && maxBytes == old(maxBytes) && oversize == old(oversize)
        invariant full + FieldList(mask, index) == start + FieldList(mask, 0)
      {
        FieldListStep(mask, index);
        if index in mask {
          ghost var before := full;
          ghost var rest := FieldList(mask, index + 1);
          var image: u8 := index;
          done := Raw([image]);
          assert before + ([image] + rest) == (before + [image]) + rest;
          if !done {
            return false;
          }
        }
      }
      FieldListEnd(mask);
      assert full == start + FieldList(mask, 0);
      Reassociate(start, FieldList(mask, 0));
      return true;
    }

    /** One value for every reported field, in field order. */
    method FieldValues(mask: FieldMask, values: seq<u64>)
      requires Valid() && |values| == FIELD_COUNT
      modifies this
      ensures Valid() && maxBytes == old(maxBytes) && oversize == old(oversize)
      ensures forall tail: bytes :: full + tail == old(full) + PutFieldValues(mask, values, 0, tail)
    {
      hide PutU64;
      var index := 0;
      while index < FIELD_COUNT
        invariant 0 <= index <= FIELD_COUNT
        invariant Valid() && maxBytes == old(maxBytes) && oversize == old(oversize)
        invariant forall tail: bytes ::
          full + PutFieldValues(mask, values, index, tail) == old(full) + PutFieldValues(mask, values, 0, tail)
      {
        if index in mask {
          var _ := U64(values[index]);
        }
        index := index + 1;
      }
    }
  }

  lemma Reassociate(s: bytes, t: bytes)
    ensures forall tail: bytes :: (s + t) + tail == s + (t + tail)
  {}

  lemma StringImage(v: bytes)
    ensures forall tail: bytes :: PutString(v, tail) == (LittleEndian(Cast32(|v|), 4) + v) + tail
  {
    forall tail: bytes
      ensures PutString(v, tail) == (LittleEndian(Cast32(|v|), 4) + v) + tail
    {
      assert LittleEndian(Cast32(|v|), 4) + (v + tail) == (LittleEndian(Cast32(|v|), 4) + v) + tail;
    }
  }

  // ---- writing records ------------------------------------------------------------------

  method WriteSample(w: ByteWriter, x: DurableSample) returns (goesOn: bool)
    requires w.Valid() && Shaped(x)
    modifies w
    ensures w.Valid() && w.maxBytes == old(w.maxBytes)
    ensures NormalSample(x) ==> w.oversize == old(w.oversize)
    ensures goesOn ==> forall tail: bytes :: w.full + tail == old(w.full) + PutSample(x, tail)
    ensures !goesOn ==> !w.ok && |w.full| <= |old(w.full)| + |PutSample(x, [])|
  {
    hide PutI64, PutU64, PutU8, PutString, PutBitmap, PutFieldValues, MaskAsU64, ValidName;
    NameIsBounded(x.domain);
    NameIsBounded(x.source);
    NameIsBounded(x.incarnation);
    var _ := w.I64(x.observedNs);
    var _ := w.NameId(x.domain);
    var _ := w.I64(x.receivedWall);
    var _ := w.I64(x.receivedSteady);
    var _ := w.NameId(x.source);
    var _ := w.NameId(x.incarnation);
    var _ := w.U64(x.generation);
    var _ := w.U64(x.sequence);
    var _ := w.U8(x.authority);
    var _ := w.U64(MaskAsU64(x.reported));
    ghost var before := w.full;
    goesOn := w.SampleBitmap(x.reported);
    if !goesOn {
      SampleHead(x, before, old(w.full));
      return;
    }
    w.FieldValues(x.reported, x.values);
    var _ := w.U8(x.state);
    var _ := w.U8(x.freshness);
    var _ := w.U8(x.quality);
    var _ := w.I64(x.ageNs);
  }

  /** The fields from the bitmap on. */
  function PutSampleBack(x: DurableSample): bytes
    requires Shaped(x)
  {
    PutBitmap(x.reported, PutFieldValues(x.reported, x.values, 0, PutU8(x.state, PutU8(x.freshness,
      PutU8(x.quality, PutI64(x.ageNs, []))))))
  }

  lemma SampleHead(x: DurableSample, before: bytes, start: bytes)
    requires Shaped(x) && before + PutSampleBack(x) == start + PutSample(x, [])
    ensures |before| + |PutBitmap(x.reported, [])| <= |start| + |PutSample(x, [])|
  {
    hide PutSample, PutFieldValues, PutI64;
  }

  method WriteQueueHead(w: ByteWriter, q: DurableQueueState)
    requires w.Valid()
    modifies w
    ensures w.Valid() && w.maxBytes == old(w.maxBytes)
    ensures NormalPath(q.path) && NormalClass(q.schedulingClass) ==> w.oversize == old(w.oversize)
    ensures forall tail: bytes :: w.full + tail == old(w.full) + PutQueueHead(q, tail)
  {
    hide PutU64, PutU32, PutU8, PutString, PutOptionalU16, PutOptionalName, ValidPathName, NormalClass;
    PathNameIsBounded(q.path.device);
    PathNameIsBounded(q.path.port);
    var _ := w.NameId(q.path.device);
    var _ := w.NameId(q.path.port);
    var _ := w.U32(q.path.queue);
    var _ := w.U8(Flag(q.classesKnown));
    w.OptionalU16(q.trafficClass);
    w.OptionalName(q.schedulingClass);
    var _ := w.U8(q.origin);
    var _ := w.U64(q.metadataRevision);
  }

  /** Samples one after the other; gives up at the first that does not fit. */
  method WriteSamples(w: ByteWriter, xs: seq<DurableSample>) returns (goesOn: bool)
    requires w.Valid() && forall x :: x in xs ==> Shaped(x)
    modifies w
    ensures w.Valid() && w.maxBytes == old(w.maxBytes)
    ensures (forall x :: x in xs ==> NormalSample(x)) ==> w.oversize == old(w.oversize)
    ensures goesOn ==> w.full == old(w.full) + PutSamples(xs, [])
    ensures !goesOn ==> !w.ok && |w.full| <= |old(w.full)| + |PutSamples(xs, [])|
  {
    hide PutSample, NormalSample;
    assert xs[0..] == xs;
    var i := 0;
    while i < |xs|
      invariant 0 <= i <= |xs|
      invariant w.Valid() && w.maxBytes == old(w.maxBytes)
      invariant (forall x :: x in xs ==> NormalSample(x)) ==> w.oversize == old(w.oversize)
      invariant w.full + PutSamples(xs[i..], []) == old(w.full) + PutSamples(xs, [])
    {
      assert xs[i] in xs;
      assert xs[i..][0] == xs[i] && xs[i..][1..] == xs[i + 1..];
      PutSampleLength(xs[i], PutSamples(xs[i + 1..], []));
      goesOn := WriteSample(w, xs[i]);
      if !goesOn {
        return;
      }
      i := i + 1;
    }
    assert xs[i..] == [];
    assert w.full + [] == w.full;
    return true;
  }

  method EncodeQueueRecord(q: DurableQueueState, limits: PersistenceLimits) returns (done: bool, value: bytes)
    requires QueueShaped(q)
    ensures done ==> value == PutQueueRecord(q, []) && |value| <= limits.maxRecordBytes && |q.samples| < U32_LIMIT
    ensures NormalQueue(q) && |q.samples| < U32_LIMIT ==>
              (done <==> |PutQueueRecord(q, [])| <= limits.maxRecordBytes)
  {
    hide PutU32, PutQueueHead, PutSamples, NormalSample;
    var w := new ByteWriter([], limits.maxRecordBytes);
    WriteQueueHead(w, q);
    if |q.samples| > 0xFFFF_FFFF {
      return false, [];
    }
    var _ := w.U32(Cast32(|q.samples|));
    ghost var rest := PutSamples(q.samples, []);
    assert w.full + rest == [] + PutQueueHead(q, PutU32(Cast32(|q.samples|), rest));
    var goesOn := WriteSamples(w, q.samples);
    if !goesOn {
      return false, [];
    }
    return w.ok, w.out;
  }

  lemma PathNameIsBounded(s: bytes)
    ensures ValidPathName(s) ==> |s| <= MAX_IDENTITY_LENGTH
  {}

  lemma PutSampleLength(x: DurableSample, tail: bytes)
    requires Shaped(x)
    ensures |PutSample(x, tail)| == |PutSample(x, [])| + |tail|
  {
    hide PutI64, PutU64, PutU8, PutString, PutFieldValues, MaskAsU64;
    var head := PutU8(x.state, PutU8(x.freshness, PutU8(x.quality, PutI64(x.ageNs, tail))));
    var bare := PutU8(x.state, PutU8(x.freshness, PutU8(x.quality, PutI64(x.ageNs, []))));
    FieldValuesLength(x.reported, x.values, 0, head);
    FieldValuesLength(x.reported, x.values, 0, bare);
  }

  lemma {:induction false} FieldValuesLength(mask: FieldMask, values: seq<u64>, i: nat, tail: bytes)
    requires i <= FIELD_COUNT == |values|
    ensures |PutFieldValues(mask, values, i, tail)| == 8 * |FieldList(mask, i)| + |tail|
    decreases FIELD_COUNT - i
  {
    hide PutU64;
    if i < FIELD_COUNT {
      FieldValuesLength(mask, values, i + 1, tail);
    }
  }

  method WriteSource(w: ByteWriter, x: SourceRecord)
    requires w.Valid()
    modifies w
    ensures w.Valid() && w.maxBytes == old(w.maxBytes)
    ensures NormalSource(x) ==> w.oversize == old(w.oversize)
    ensures forall tail: bytes :: w.full + tail == old(w.full) + PutSource(x, tail)
  {
    hide PutI64, PutU64, PutU32, PutU8, PutString, PutIncarnations, ValidName, ToI64;
    NameIsBounded(x.id);
    NameIsBounded(x.incarnation);
    NameIsBounded(x.clockDomain);
    var _ := w.NameId(x.id);
    var _ := w.U8(x.authority);
    var _ := w.U8(x.declaredAuthority);
    var _ := w.NameId(x.incarnation);
    var _ := w.U64(x.ordinal);
    var _ := w.U64(x.lastSequence);
    var _ := w.U64(x.generation);
    var _ := w.NameId(x.clockDomain);
    var _ := w.I64(x.firstWall);
    var _ := w.I64(x.firstSteady);
    var _ := w.I64(x.lastWall);
    var _ := w.I64(x.lastSteady);
    var _ := w.U64(x.accepted);
    var _ := w.U64(x.fenced);
    var _ := w.U64(x.duplicates);
    var _ := w.U64(x.rejected);
    var _ := w.I64(ToI64(x.lastObservedNs));
    WriteIncarnations(w, x.recent);
  }

  method WriteIncarnations(w: ByteWriter, xs: seq<Incarnation>)
    requires w.Valid()
    modifies w
    ensures w.Valid() && w.maxBytes == old(w.maxBytes)
    ensures (forall x :: x in xs ==> ValidName(x.token)) ==> w.oversize == old(w.oversize)
    ensures forall tail: bytes :: w.full + tail == old(w.full) + PutU32(Cast32(|xs|), PutIncarnations(xs, tail))
  {
    hide PutU64, PutU32, PutString, ValidName;
    var _ := w.U32(Cast32(|xs|));
    assert xs[0..] == xs;
    for i := 0 to |xs|
      invariant w.Valid() && w.maxBytes == old(w.maxBytes)
      invariant (forall x :: x in xs ==> ValidName(x.token)) ==> w.oversize == old(w.oversize)
      invariant forall tail: bytes ::
        w.full + PutIncarnations(xs[i..], tail) == old(w.full) + PutU32(Cast32(|xs|), PutIncarnations(xs, tail))
    {
      assert xs[i] in xs;
      assert xs[i..][0] == xs[i] && xs[i..][1..] == xs[i + 1..];
      NameIsBounded(xs[i].token);
      var _ := w.NameId(xs[i].token);
      var _ := w.U64(xs[i].ordinal);
    }
    assert xs[|xs|..] == [];
  }

  method EncodeSourceRegistry(xs: seq<SourceRecord>, limits: PersistenceLimits) returns (done: bool, value: bytes)
    ensures done ==> value == PutSourceRegistry(xs, []) && |value| <= limits.maxRecordBytes
    ensures (forall x :: x in xs ==> NormalSource(x)) ==>
              (done <==> |PutSourceRegistry(xs, [])| <= limits.maxRecordBytes)
  {
    hide PutU32, PutSource, NormalSource;
    var w := new ByteWriter([], limits.maxRecordBytes);
    var _ := w.U32(Cast32(|xs|));
    ghost var image := PutSourceRegistry(xs, []);
    assert xs[0..] == xs;
    assert w.full + PutSources(xs, []) == [] + image;
    for i := 0 to |xs|
      invariant w.Valid() && w.maxBytes == limits.maxRecordBytes
      invariant (forall x :: x in xs ==> NormalSource(x)) ==> !w.oversize
      invariant w.full + PutSources(xs[i..], []) == image
    {
      assert xs[i] in xs;
      assert xs[i..][0] == xs[i] && xs[i..][1..] == xs[i + 1..];
      WriteSource(w, xs[i]);
    }
    assert xs[|xs|..] == [];
    assert w.full + [] == w.full;
    return w.ok, w.out;
  }

  method WriteEvent(w: ByteWriter, x: EventRecord)
    requires w.Valid()
    modifies w
    ensures w.Valid() && w.maxBytes == old(w.maxBytes)
    ensures NormalEvent(x) ==> w.oversize == old(w.oversize)
    ensures forall tail: bytes :: w.full + tail == old(w.full) + PutEvent(x, tail)
  {
    hide PutI64, PutU64, PutU32, PutU8, PutString, ValidName;
    NameIsBounded(x.domain);
    NameIsBounded(x.path.device);
    NameIsBounded(x.path.port);
    NameIsBounded(x.source);
    NameIsBounded(x.incarnation);
    var _ := w.U8(x.kind);
    var _ := w.U8(x.severity);
    var _ := w.I64(x.receivedWall);
    var _ := w.I64(x.receivedSteady);
    var _ := w.I64(x.observedNs);
    var _ := w.NameId(x.domain);
    var _ := w.NameId(x.path.device);
    var _ := w.NameId(x.path.port);
    var _ := w.U32(x.path.queue);
    var _ := w.NameId(x.source);
    var _ := w.NameId(x.incarnation);
    var _ := w.U64(x.sequence);
    var _ := w.U64(x.revision);
    var _ := w.String(x.detail, 512);
  }

  method EncodeEventBatch(xs: seq<EventRecord>, limits: PersistenceLimits) returns (done: bool, value: bytes)
    ensures done ==> value == PutEventBatch(xs, []) && |value| <= limits.maxRecordBytes
    ensures (forall x :: x in xs ==> NormalEvent(x)) ==>
              (done <==> |PutEventBatch(xs, [])| <= limits.maxRecordBytes)
  {
    hide PutU32, PutEvent, NormalEvent;
    var w := new ByteWriter([], limits.maxRecordBytes);
    var _ := w.U32(Cast32(|xs|));
    ghost var image := PutEventBatch(xs, []);
    assert xs[0..] == xs;
    assert w.full + PutEvents(xs, []) == [] + image;
    for i := 0 to |xs|
      invariant w.Valid() && w.maxBytes == limits.maxRecordBytes
      invariant (forall x :: x in xs ==> NormalEvent(x)) ==> !w.oversize
      invariant w.full + PutEvents(xs[i..], []) == image
    {
      assert xs[i] in xs;
      assert xs[i..][0] == xs[i] && xs[i..][1..] == xs[i + 1..];
      WriteEvent(w, xs[i]);
    }
    assert xs[|xs|..] == [];
    assert w.full + [] == w.full;
    return w.ok, w.out;
  }

  method WriteTrafficClasses(w: ByteWriter, xs: seq<TrafficClass>)
    requires w.Valid()
    modifies w
    ensures w.Valid() && w.maxBytes == old(w.maxBytes)
    ensures (forall x :: x in xs ==> NormalTrafficClass(x)) ==> w.oversize == old(w.oversize)
    ensures forall tail: bytes :: w.full + tail == old(w.full) + PutU32(Cast32(|xs|), PutTrafficClasses(xs, tail))
  {
    hide PutU32, PutU16, PutString, PutOptionalU16, PutOptionalName, NormalClass;
    var _ := w.U32(Cast32(|xs|));
    assert xs[0..] == xs;
    for i := 0 to |xs|
      invariant w.Valid() && w.maxBytes == old(w.maxBytes)
      invariant (forall x :: x in xs ==> NormalTrafficClass(x)) ==> w.oversize == old(w.oversize)
      invariant forall tail: bytes ::
        w.full + PutTrafficClasses(xs[i..], tail) == old(w.full) + PutU32(Cast32(|xs|), PutTrafficClasses(xs, tail))
    {
      var x := xs[i];
      assert x in xs;
      assert xs[i..][0] == x && xs[i..][1..] == xs[i + 1..];
      var _ := w.U16(x.id);
      var _ := w.String(x.name, 128);
      w.OptionalU16(x.dscp);
      w.OptionalU16(x.priority);
      w.OptionalName(x.schedulingClass);
    }
    assert xs[|xs|..] == [];
  }

  method WriteSchedulingClasses(w: ByteWriter, xs: seq<SchedulingClass>)
    requires w.Valid()
    modifies w
    ensures w.Valid() && w.maxBytes == old(w.maxBytes)
    ensures (forall x :: x in xs ==> NormalSchedulingClass(x)) ==> w.oversize == old(w.oversize)
    ensures forall tail: bytes :: w.full + tail == old(w.full) + PutU32(Cast32(|xs|), PutSchedulingClasses(xs, tail))
  {
    hide PutU32, PutString, PutOptionalU64, ValidName;
    var _ := w.U32(Cast32(|xs|));
    assert xs[0..] == xs;
    for i := 0 to |xs|
      invariant w.Valid() && w.maxBytes == old(w.maxBytes)
      invariant (forall x :: x in xs ==> NormalSchedulingClass(x)) ==> w.oversize == old(w.oversize)
      invariant forall tail: bytes ::
        w.full + PutSchedulingClasses(xs[i..], tail) == old(w.full) + PutU32(Cast32(|xs|), PutSchedulingClasses(xs, tail))
    {
      var x := xs[i];
      assert x in xs;
      assert xs[i..][0] == x && xs[i..][1..] == xs[i + 1..];
      NameIsBounded(x.id);
      var _ := w.NameId(x.id);
      var _ := w.String(x.mode, 64);
      w.OptionalU64(x.weight);
    }
    assert xs[|xs|..] == [];
  }

  method WriteBindings(w: ByteWriter, xs: seq<Binding>)
    requires w.Valid()
    modifies w
    ensures w.Valid() && w.maxBytes == old(w.maxBytes)
    ensures (forall x :: x in xs ==> NormalBinding(x)) ==> w.oversize == old(w.oversize)
    ensures forall tail: bytes :: w.full + tail == old(w.full) + PutU32(Cast32(|xs|), PutBindings(xs, tail))
  {
    hide PutU32, PutString, PutOptionalU16, PutOptionalName, ValidName, NormalClass;
    var _ := w.U32(Cast32(|xs|));
    assert xs[0..] == xs;
    for i := 0 to |xs|
      invariant w.Valid() && w.maxBytes == old(w.maxBytes)
      invariant (forall x :: x in xs ==> NormalBinding(x)) ==> w.oversize == old(w.oversize)
      invariant forall tail: bytes ::
        w.full + PutBindings(xs[i..], tail) == old(w.full) + PutU32(Cast32(|xs|), PutBindings(xs, tail))
    {
      var x := xs[i];
      assert x in xs;
      assert xs[i..][0] == x && xs[i..][1..] == xs[i + 1..];
      NameIsBounded(x.path.device);
      NameIsBounded(x.path.port);
      var _ := w.NameId(x.path.device);
      var _ := w.NameId(x.path.port);
      var _ := w.U32(x.path.queue);
      w.OptionalU16(x.trafficClass);
      w.OptionalName(x.schedulingClass);
    }
    assert xs[|xs|..] == [];
  }

  method WriteMetadataHead(w: ByteWriter, m: Metadata)
    requires w.Valid()
    modifies w
    ensures w.Valid() && w.maxBytes == old(w.maxBytes)
    ensures ValidName(m.source) ==> w.oversize == old(w.oversize)
    ensures forall tail: bytes :: w.full + tail == old(w.full) + PutMetadataHead(m, tail)
  {
    hide PutU64, PutU8, PutI64, PutString, ValidName;
    NameIsBounded(m.source);
    var _ := w.U64(m.revision);
    var _ := w.U64(m.generation);
    var _ := w.NameId(m.source);
    var _ := w.U8(m.authority);
    var _ := w.I64(m.receivedWall);
    var _ := w.I64(m.receivedSteady);
  }

  method EncodeMetadata(m: Metadata, limits: PersistenceLimits) returns (done: bool, value: bytes)
    ensures done ==> value == PutMetadata(m, []) && |value| <= limits.maxMetadataBytes
    ensures NormalMetadata(m) ==> (done <==> |PutMetadata(m, [])| <= limits.maxMetadataBytes)
  {
    hide PutMetadataHead, PutU32, PutTrafficClasses, PutSchedulingClasses, PutBindings,
      NormalTrafficClass, NormalSchedulingClass, NormalBinding, ValidName;
    var w := new ByteWriter([], limits.maxMetadataBytes);
    WriteMetadataHead(w, m);
    WriteTrafficClasses(w, m.trafficClasses);
    WriteSchedulingClasses(w, m.schedulingClasses);
    WriteBindings(w, m.bindings);
    assert w.full + [] == w.full;
    return w.ok, w.out;
  }

  method EncodeSession(x: Snapshot, limits: PersistenceLimits) returns (done: bool, value: bytes)
    ensures done ==> value == PutSession(x, []) && |value| <= limits.maxRecordBytes
    ensures |x.runtimeId| <= MAX_RUNTIME_ID_BYTES && |x.policyName| <= 128 ==>
              (done <==> |PutSession(x, [])| <= limits.maxRecordBytes)
  {
    hide PutU32, PutI64, PutString;
    var w := new ByteWriter([], limits.maxRecordBytes);
    var _ := w.String(x.runtimeId, MAX_RUNTIME_ID_BYTES);
    var _ := w.U32(x.policyVersion);
    var _ := w.String(x.policyName, 128);
    var _ := w.I64(x.createdWall);
    var _ := w.I64(x.createdSteady);
    var _ := w.U32(QueueCount(x));
    assert w.full + [] == w.full;
    return w.ok, w.out;
  }

  // ---- the encoder ----------------------------------------------------------------------

  /** The header is laid out with a blank checksum, which is then patched in place. */
  method WriteHeader(h: Header) returns (done: bool, header: bytes)
    ensures done && header == SealedHeader(h)
  {
    hide PutU32, PutU64, PutI64, HeaderImage, Crc32c.Checksum, Crc32c.Word, LittleEndian;
    var w := new ByteWriter([], HEADER_SIZE);
    var _ := w.Raw(MAGIC);
    var _ := w.U32(h.formatVersion);
    var _ := w.U32(h.headerSize);
    HeaderFrontIs(h, w.full);
    var _ := w.U32(0);
    WriteHeaderBack(w, h);
    assert w.full + [] == w.full;
    HeaderImageIs(h, 0);
    var blank := w.out;
    assert w.full == HeaderImage(h, 0);
    if !w.ok || |w.out| != HEADER_SIZE {
      return false, [];
    }
    var crc := Crc32c.ChecksumOf(blank);
    var image := OctetsOf(Crc32c.Word(crc), 4);
    header := blank[..16] + image + blank[20..];
    PatchedHeader(h, Crc32c.Word(crc));
    return true, header;
  }

  lemma HeaderFrontIs(h: Header, s: bytes)
    requires forall tail: bytes :: s + tail == MAGIC + PutU32(h.formatVersion, PutU32(h.headerSize, tail))
    ensures forall tail: bytes :: s + tail == PutHeaderFront(h, tail)
  {
    hide PutU32;
  }

  lemma HeaderImageIs(h: Header, crc: u32)
    ensures HeaderImage(h, crc) == PutHeaderFront(h, PutU32(crc, PutHeaderBack(h, [])))
  {}

  /** Replacing the four checksum octets of the blank header seals it. */
  lemma PatchedHeader(h: Header, crc: u32)
    ensures HeaderImage(h, 0)[..16] + LittleEndian(crc, 4) + HeaderImage(h, 0)[20..] == HeaderImage(h, crc)
  {
    hide LittleEndian, PutHeaderBack;
    hide PutHeaderFront, PutU32;
    var back := PutHeaderBack(h, []);
    CrcThen(h, crc, back);
    CrcThen(h, 0, back);
    Patch(PutHeaderFront(h, []), LittleEndian(0, 4), LittleEndian(crc, 4), back);
  }

  lemma Patch(front: bytes, old4: bytes, new4: bytes, back: bytes)
    requires |front| == 16 && |old4| == 4
    ensures (var s := front + (old4 + back); |s| >= 20 && s[..16] + new4 + s[20..] == front + (new4 + back))
  {
    var s := front + (old4 + back);
    assert s[..16] == front && s[20..] == back;
  }

  method WriteHeaderBack(w: ByteWriter, h: Header)
    requires w.Valid()
    modifies w
    ensures w.Valid() && w.maxBytes == old(w.maxBytes) && w.oversize == old(w.oversize)
    ensures forall tail: bytes :: w.full + tail == old(w.full) + PutHeaderBack(h, tail)
  {
    hide PutU32, PutU64, PutI64;
    var _ := w.U32(h.policyVersion);
    var _ := w.U32(h.runtimeIdLength);
    var _ := w.U32(h.flags);
    var _ := w.I64(h.createdWall);
    var _ := w.I64(h.createdSteady);
    var _ := w.U64(h.recordCount);
    var _ := w.U64(h.payloadBytes);
    var _ := w.U32(h.payloadCrc);
    var _ := w.U32(h.major);
    var _ := w.U32(h.minor);
    var _ := w.U32(h.patch);
  }

  method RecordPrefix(kind: u8, flags: u8, length: u32) returns (prefix: bytes)
    ensures prefix == PutPrefix(kind, flags, length, [])
  {
    var image := OctetsOf(length, 4);
    prefix := [kind, flags, 0, 0] + image;
    PrefixIs(kind, flags, length);
  }

  lemma PrefixIs(kind: u8, flags: u8, length: u32)
    ensures PutPrefix(kind, flags, length, []) == [kind, flags, 0, 0] + LittleEndian(length, 4)
  {
    assert LittleEndian(0, 2) == [0, 0];
    assert LittleEndian(length, 4) + [] == LittleEndian(length, 4);
  }

  /** The checksum over prefix and value, taken in two steps. */
  method ChecksumRecord(prefix: bytes, value: bytes) returns (crc: u32)
    ensures crc == Crc32c.Word(Crc32c.Checksum(prefix + value))
  {
    hide Crc32c.Run, Crc32c.Word;
    var c := new Crc32c.Incremental();
    c.Update(prefix);
    c.Update(value);
    Crc32c.RunConcat(Crc32c.INITIAL, prefix, value);
    var sum := c.Value();
    crc := Crc32c.Word(sum);
  }

  /** Checksum, prefix and value go onto the payload, or the record is refused; a refusal takes
      nothing away from the payload, but may leave part of the record behind it. */
  method AppendRecord(payload: bytes, kind: u8, value: bytes, maxBytes: u64) returns (done: bool, longer: bytes)
    requires |payload| <= maxBytes
    ensures done <==> |value| < U32_LIMIT && |payload| + RecordSize(Record(kind, value)) <= maxBytes
    ensures done ==> longer == payload + PutRecord(Record(kind, value), [])
    ensures payload <= longer
  {
    hide PutU32, PutPrefix, RecordChecksum, PutRecord, Crc32c.Checksum, Crc32c.Word;
    if |value| > maxBytes || |value| > 0xFFFF_FFFF {
      return false, payload;
    }
    var prefix := RecordPrefix(kind, 0, |value|);
    var crc := ChecksumRecord(prefix, value);
    ChecksumIs(kind, value);
    var w := new ByteWriter(payload, maxBytes);
    var _ := w.U32(crc);
    ghost var head := w.full;
    assert head + [] == head && head == payload + PutU32(crc, []);
    var _ := w.Raw(prefix);
    assert payload <= w.out;
    var _ := w.Raw(value);
    assert payload <= w.out;
    RecordImage(payload, Record(kind, value));
    assert w.full == head + prefix + value;
    return w.ok, w.out;
  }

  lemma ChecksumIs(kind: u8, value: bytes)
    requires |value| < U32_LIMIT
    ensures RecordChecksum(kind, 0, value) == Crc32c.Word(Crc32c.Checksum(PutPrefix(kind, 0, |value|, []) + value))
  {
    hide PutPrefix, Crc32c.Checksum, Crc32c.Word;
  }

  lemma RecordImage(payload: bytes, r: Record)
    requires |r.value| < U32_LIMIT
    ensures payload + PutRecord(r, [])
         == ((payload + PutU32(RecordChecksum(r.kind, 0, r.value), [])) + PutPrefix(r.kind, 0, |r.value|, [])) + r.value
  {
    hide PutU32, PutPrefix, RecordChecksum;
    var crc := PutU32(RecordChecksum(r.kind, 0, r.value), []);
    var prefix := PutPrefix(r.kind, 0, |r.value|, []);
    PrefixThen(r.kind, 0, |r.value|, r.value);
    assert r.value + [] == r.value;
    assert [] + (prefix + r.value) == prefix + r.value;
    U32Then(RecordChecksum(r.kind, 0, r.value), [], prefix + r.value);
    assert payload + (crc + (prefix + r.value)) == ((payload + crc) + prefix) + r.value;
  }

  /** What the encoder has found to fit so far. */
  ghost predicate FitsUpTo(rs: seq<Record>, k: nat, limits: PersistenceLimits)
    requires k <= |rs|
  {
    && (forall i :: 0 <= i < k ==> RecordWithin(rs[i], limits))
    && k <= limits.maxSegmentRecords
    && PayloadSize(rs[..k]) <= limits.maxSegmentBytes
  }

  lemma {:induction false} PayloadSnoc(rs: seq<Record>, k: nat)
    requires k < |rs|
    ensures Payload(rs[..k + 1], []) == Payload(rs[..k], []) + PutRecord(rs[k], [])
  {
    hide PutHead;
    if k == 0 {
      assert rs[..1] == [rs[0]] && rs[..1][1..] == [];
    } else {
      PayloadSnoc(rs[1..], k - 1);
      assert rs[..k + 1][1..] == rs[1..][..k] && rs[..k][1..] == rs[1..][..k - 1];
      RecordPrepends(rs[0], Payload(rs[1..][..k - 1], []), PutRecord(rs[k], []));
    }
  }

  lemma RecordPrepends(r: Record, s: bytes, t: bytes)
    ensures PutRecord(r, s + t) == PutRecord(r, s) + t
  {
    hide PutHead;
    HeadThen(r, r.value + (s + t));
    HeadThen(r, r.value + s);
    var whole := PutRecord(r, s + t);
    var part := PutRecord(r, s);
    assert whole == whole[..RECORD_HEADER_SIZE] + whole[RECORD_HEADER_SIZE..];
    assert part == part[..RECORD_HEADER_SIZE] + part[RECORD_HEADER_SIZE..];
    assert (r.value + (s + t)) == (r.value + s) + t;
  }

  /** Appends record k of a segment if the limits still allow it. */
  method Append(payload: bytes, count: u64, kind: u8, value: bytes, limits: PersistenceLimits,
                ghost rs: seq<Record>, ghost k: nat) returns (status: Status, longer: bytes)
    requires k < |rs| && rs[k] == Record(kind, value) && count == k && payload == Payload(rs[..k], [])
    requires FitsUpTo(rs, k, limits)
    ensures status == Ok <==> FitsUpTo(rs, k + 1, limits)
    ensures status == Ok ==> longer == Payload(rs[..k + 1], []) && count + 1 < U64_LIMIT
  {
    hide PutRecord;
    PayloadLength(rs[..k]);
    PayloadSizeSnoc(rs, k);
    if |value| > limits.maxRecordBytes {
      return Failure(LimitExceeded), payload;
    }
    if count >= limits.maxSegmentRecords {
      return Failure(LimitExceeded), payload;
    }
    var done, more := AppendRecord(payload, kind, value, limits.maxSegmentBytes);
    if !done {
      return Failure(LimitExceeded), payload;
    }
    PayloadSnoc(rs, k);
    return Ok, more;
  }

  lemma FitsNeedsPrefix(rs: seq<Record>, k: nat, limits: PersistenceLimits)
    requires k <= |rs| && FitsUpTo(rs, |rs|, limits)
    ensures FitsUpTo(rs, k, limits)
  {
    assert rs[..|rs|] == rs;
    PrefixIsSmaller(rs, k);
  }

  lemma {:induction false} PrefixIsSmaller(rs: seq<Record>, k: nat)
    requires k <= |rs|
    ensures PayloadSize(rs[..k]) <= PayloadSize(rs)
  {
    if k > 0 {
      PrefixIsSmaller(rs[1..], k - 1);
      assert rs[..k][1..] == rs[1..][..k - 1];
    }
  }

  lemma MembersByIndex(rs: seq<Record>, limits: PersistenceLimits)
    ensures (forall r :: r in rs ==> RecordWithin(r, limits)) <==>
            (forall i :: 0 <= i < |rs| ==> RecordWithin(rs[i], limits))
  {}

  lemma FitsMeansAll(x: Snapshot, limits: PersistenceLimits)
    requires SnapshotShaped(x)
    ensures Fits(x, limits) <==>
              && limits.Valid() && |x.runtimeId| <= MAX_RUNTIME_ID_BYTES
              && (x.hasMetadata ==> |PutMetadata(x.metadata, [])| <= limits.maxMetadataBytes)
              && FitsUpTo(SnapshotRecords(x), |SnapshotRecords(x)|, limits)
  {
    hide SnapshotRecords, SnapshotShaped, PutMetadata, Payload;
    var rs := SnapshotRecords(x);
    assert rs[..|rs|] == rs;
    PayloadLength(rs);
    MembersByIndex(rs, limits);
  }

  /** What the first k records add up to, on the way to a whole segment. */
  ghost predicate Underway(x: Snapshot, limits: PersistenceLimits, k: nat, payload: bytes, count: u64)
    requires SnapshotShaped(x)
  {
    && k <= |SnapshotRecords(x)| && count == k
    && payload == Payload(SnapshotRecords(x)[..k], [])
    && FitsUpTo(SnapshotRecords(x), k, limits)
  }

  /** A record that cannot be appended, or whose value is too large, rules the snapshot out. */
  lemma DoesNotFit(x: Snapshot, limits: PersistenceLimits, k: nat)
    requires SnapshotShaped(x) && k < |SnapshotRecords(x)|
    requires !FitsUpTo(SnapshotRecords(x), k + 1, limits) || !RecordWithin(SnapshotRecords(x)[k], limits)
    ensures !Fits(x, limits)
  {
    hide SnapshotRecords, SnapshotShaped, Fits;
    FitsMeansAll(x, limits);
    if Fits(x, limits) {
      FitsNeedsPrefix(SnapshotRecords(x), k + 1, limits);
    }
  }

  method EncodeQueues(x: Snapshot, limits: PersistenceLimits, payload0: bytes, count0: u64)
    returns (status: Status, payload: bytes, count: u64)
    requires SnapshotShaped(x) && Underway(x, limits, 1, payload0, count0)
    ensures status == Ok ==> Underway(x, limits, 1 + |x.queues|, payload, count)
    ensures status != Ok && Normal(x) ==> !Fits(x, limits)
  {
    hide SnapshotRecords, Fits, Payload, FitsUpTo, PutQueueRecord, NormalQueue, QueueShaped;
    payload, count := payload0, count0;
    RecordCount(x);
    for i := 0 to |x.queues|
      invariant Underway(x, limits, i + 1, payload, count)
    {
      var q := x.queues[i];
      assert q in x.queues;
      RecordAt(x, i + 1);
      var done, value := EncodeQueueRecord(q, limits);
      if !done {
        if Normal(x) {
          DoesNotFit(x, limits, i + 1);
        }
        return Failure(LimitExceeded), payload, count;
      }
      var step, longer := Append(payload, count, QUEUE_SNAPSHOT, value, limits, SnapshotRecords(x), i + 1);
      if step != Ok {
        DoesNotFit(x, limits, i + 1);
        return step, payload, count;
      }
      payload, count := longer, count + 1;
    }
    return Ok, payload, count;
  }

  method EncodeSources(x: Snapshot, limits: PersistenceLimits, payload0: bytes, count0: u64)
    returns (status: Status, payload: bytes, count: u64)
    requires SnapshotShaped(x) && Underway(x, limits, 1 + |x.queues|, payload0, count0)
    ensures status == Ok ==> Underway(x, limits, 1 + |x.queues| + SourceSlots(x), payload, count)
    ensures status != Ok && Normal(x) ==> !Fits(x, limits)
  {
    hide SnapshotRecords, Fits, Payload, FitsUpTo, PutSourceRegistry, NormalSource, SnapshotShaped;
    payload, count := payload0, count0;
    if x.sources == [] {
      return Ok, payload, count;
    }
    ghost var k := 1 + |x.queues|;
    RecordCount(x);
    RecordAt(x, k);
    var done, value := EncodeSourceRegistry(x.sources, limits);
    if !done {
      if Normal(x) {
        DoesNotFit(x, limits, k);
      }
      return Failure(LimitExceeded), payload, count;
    }
    var step, longer := Append(payload, count, SOURCE_REGISTRY, value, limits, SnapshotRecords(x), k);
    if step != Ok {
      DoesNotFit(x, limits, k);
      return step, payload, count;
    }
    return Ok, longer, count + 1;
  }

  method EncodeEvents(x: Snapshot, limits: PersistenceLimits, payload0: bytes, count0: u64)
    returns (status: Status, payload: bytes, count: u64)
    requires SnapshotShaped(x) && Underway(x, limits, 1 + |x.queues| + SourceSlots(x), payload0, count0)
    ensures status == Ok ==> Underway(x, limits, 1 + |x.queues| + SourceSlots(x) + EventSlots(x), payload, count)
    ensures status != Ok && Normal(x) ==> !Fits(x, limits)
  {
    hide SnapshotRecords, Fits, Payload, FitsUpTo, PutEventBatch, NormalEvent, SnapshotShaped;
    payload, count := payload0, count0;
    if x.events == [] {
      return Ok, payload, count;
    }
    ghost var k := 1 + |x.queues| + SourceSlots(x);
    RecordCount(x);
    RecordAt(x, k);
    var done, value := EncodeEventBatch(x.events, limits);
    if !done {
      if Normal(x) {
        DoesNotFit(x, limits, k);
      }
      return Failure(LimitExceeded), payload, count;
    }
    var step, longer := Append(payload, count, EVENT_BATCH, value, limits, SnapshotRecords(x), k);
    if step != Ok {
      DoesNotFit(x, limits, k);
      return step, payload, count;
    }
    return Ok, longer, count + 1;
  }

  method EncodeMetadataTable(x: Snapshot, limits: PersistenceLimits, payload0: bytes, count0: u64)
    returns (status: Status, payload: bytes, count: u64)
    requires SnapshotShaped(x)
    requires Underway(x, limits, 1 + |x.queues| + SourceSlots(x) + EventSlots(x), payload0, count0)
    ensures status == Ok ==> Underway(x, limits, |SnapshotRecords(x)|, payload, count)
    ensures status == Ok && x.hasMetadata ==> |PutMetadata(x.metadata, [])| <= limits.maxMetadataBytes
    ensures status != Ok && Normal(x) ==> !Fits(x, limits)
  {
    hide SnapshotRecords, Payload, FitsUpTo, PutMetadata, NormalMetadata, SnapshotShaped;
    payload, count := payload0, count0;
    RecordCount(x);
    if !x.hasMetadata {
      return Ok, payload, count;
    }
    ghost var k := 1 + |x.queues| + SourceSlots(x) + EventSlots(x);
    RecordAt(x, k);
    var done, value := EncodeMetadata(x.metadata, limits);
    if !done {
      return Failure(LimitExceeded), payload, count;
    }
    var step, longer := Append(payload, count, METADATA_TABLE, value, limits, SnapshotRecords(x), k);
    if step != Ok {
      DoesNotFit(x, limits, k);
      return step, payload, count;
    }
    return Ok, longer, count + 1;
  }

  /** Encodes a snapshot: exactly those that fit are accepted, and the octets are
      the segment the grammar prescribes. */
  method EncodeSnapshot(x: Snapshot, limits: PersistenceLimits) returns (status: Status, out: bytes)
    requires SnapshotShaped(x)
    ensures status == Ok ==> Fits(x, limits) && out == SegmentOf(x, limits)
    ensures Normal(x) ==> (status == Ok <==> Fits(x, limits))
  {
    hide SnapshotRecords, Payload, FitsUpTo, PutSession, SnapshotShaped, NormalQueue, NormalSource,
      NormalEvent, NormalMetadata, Crc32c.Checksum, Crc32c.Word, SealedHeader, PutMetadata, Fits;
    FitsMeansAll(x, limits);
    if !limits.Valid() {
      return Failure(InvalidArgument), [];
    }
    if |x.runtimeId| > MAX_RUNTIME_ID_BYTES {
      return Failure(LimitExceeded), [];
    }
    RecordCount(x);
    RecordAt(x, 0);
    NothingYet(x, limits);
    var done, value := EncodeSession(x, limits);
    if !done {
      if Normal(x) {
        DoesNotFit(x, limits, 0);
      }
      return Failure(Internal), [];
    }
    var payload: bytes, count: u64 := [], 0;
    var step, longer := Append(payload, count, SESSION_HEADER, value, limits, SnapshotRecords(x), 0);
    if step != Ok {
      DoesNotFit(x, limits, 0);
      return step, [];
    }
    status, payload, count := EncodeQueues(x, limits, longer, count + 1);
    if status != Ok {
      return status, [];
    }
    status, payload, count := EncodeSources(x, limits, payload, count);
    if status != Ok {
      return status, [];
    }
    status, payload, count := EncodeEvents(x, limits, payload, count);
    if status != Ok {
      return status, [];
    }
    status, payload, count := EncodeMetadataTable(x, limits, payload, count);
    if status != Ok {
      return status, [];
    }
    WholeIsPrefix(SnapshotRecords(x));
    FitsSegment(x, limits);
    var sum := Crc32c.ChecksumOf(payload);
    var laidOut, header := WriteHeader(
      Header(FORMAT_VERSION, HEADER_SIZE, x.policyVersion, |x.runtimeId|, 0, x.createdWall,
             x.createdSteady, count, |payload|, Crc32c.Word(sum), VERSION_MAJOR, VERSION_MINOR, VERSION_PATCH));
    if !laidOut {
      return Failure(Internal), [];
    }
    return Ok, header + x.runtimeId + payload;
  }

  lemma NothingYet(x: Snapshot, limits: PersistenceLimits)
    requires SnapshotShaped(x)
    ensures Underway(x, limits, 0, [], 0)
  {
    hide SnapshotRecords;
    var rs := SnapshotRecords(x);
    assert rs[..0] == [];
  }

  lemma WholeIsPrefix(rs: seq<Record>)
    ensures rs[..|rs|] == rs
  {}


  // ---- the cursor -------------------------------------------------------------------------

  /** Reads forward over its input; once a read has failed, every later one does.
      The input is held in memory, so its size is a 64-bit number. */
  class ByteReader {
    const input: bytes
    const maxField: u64
    var offset: nat
    var failed: bool

    ghost predicate Valid()
      reads this
    {
      offset <= |input| <= U64_MAX
    }

    ghost function Rest(): bytes
      requires Valid()
      reads this
    {
      input[offset..]
    }

    constructor (input: bytes, maxField: u64)
      requires |input| <= U64_MAX
      ensures Valid() && !failed && Rest() == input && this.maxField == maxField
    {
      this.input, this.maxField, this.offset, this.failed := input, maxField, 0, false;
    }

    method Ensure(count: nat) returns (enough: Option<()>)
      requires Valid()
      modifies this
      ensures Valid() && offset == old(offset) && failed == enough.None?
      ensures enough.Some? <==> !old(failed) && count <= |Rest()|
    {
      if failed {
        return None;
      }
      if offset + count > U64_MAX || offset + count > |input| {
        failed := true;
        return None;
      }
      return Some(());
    }

    method U8() returns (v: Option<u8>)
      requires Valid()
      modifies this
      ensures Valid() && failed == v.None?
      ensures v.Some? <==> !old(failed) && GetU8(old(Rest())).Got?
      ensures v.Some? ==> GetU8(old(Rest())) == Got(v.value, Rest())
    {
      var _ :- Ensure(1);
      ghost var rest := Rest();
      assert rest[0] == input[offset] && rest[1..] == input[offset + 1..];
      offset := offset + 1;
      return Some(input[offset - 1]);
    }

    method U16() returns (v: Option<u16>)
      requires Valid()
      modifies this
      ensures Valid() && failed == v.None?
      ensures v.Some? <==> !old(failed) && GetU16(old(Rest())).Got?
      ensures v.Some? ==> GetU16(old(Rest())) == Got(v.value, Rest())
    {
      PowerLimits();
      var _ :- Ensure(2);
      ghost var rest := Rest();
      assert rest[..2] == input[offset..offset + 2] && rest[2..] == input[offset + 2..];
      var value := ValueOf(input[offset..offset + 2]);
      offset := offset + 2;
      return Some(value);
    }

    method U32() returns (v: Option<u32>)
      requires Valid()
      modifies this
      ensures Valid() && failed == v.None?
      ensures v.Some? <==> !old(failed) && GetU32(old(Rest())).Got?
      ensures v.Some? ==> GetU32(old(Rest())) == Got(v.value, Rest())
    {
      PowerLimits();
      var _ :- Ensure(4);
      ghost var rest := Rest();
      assert rest[..4] == input[offset..offset + 4] && rest[4..] == input[offset + 4..];
      var value := ValueOf(input[offset..offset + 4]);
      offset := offset + 4;
      return Some(value);
    }

    method U64() returns (v: Option<u64>)
      requires Valid()
      modifies this
      ensures Valid() && failed == v.None?
      ensures v.Some? <==> !old(failed) && GetU64(old(Rest())).Got?
      ensures v.Some? ==> GetU64(old(Rest())) == Got(v.value, Rest())
    {
      PowerLimits();
      var _ :- Ensure(8);
      ghost var rest := Rest();
      assert rest[..8] == input[offset..offset + 8] && rest[8..] == input[offset + 8..];
      var value := ValueOf(input[offset..offset + 8]);
      offset := offset + 8;
      return Some(value);
    }

    method I64() returns (v: Option<i64>)
      requires Valid()
      modifies this
      ensures Valid() && failed == v.None?
      ensures v.Some? <==> !old(failed) && GetI64(old(Rest())).Got?
      ensures v.Some? ==> GetI64(old(Rest())) == Got(v.value, Rest())
    {
      hide GetU64;
      var raw :- U64();
      return Some(ToI64(raw));
    }

    method String(maxLength: u32) returns (v: Option<bytes>)
      requires Valid()
      modifies this
      ensures Valid() && failed == v.None?
      ensures v.Some? <==> !old(failed) && GetString(old(Rest()), maxLength, maxField).Got?
      ensures v.Some? ==> GetString(old(Rest()), maxLength, maxField) == Got(v.value, Rest())
    {
      hide GetU32;
      var length :- U32();
      if length > maxLength || length > maxField {
        failed := true;
        return None;
      }
      var _ :- Ensure(length);
      ghost var rest := Rest();
      assert rest[..length] == input[offset..offset + length] && rest[length..] == input[offset + length..];
      offset := offset + length;
      return Some(input[offset - length..offset]);
    }

    method NameId() returns (v: Option<Name>)
      requires Valid()
      modifies this
      ensures Valid() && failed == v.None?
      ensures v.Some? <==> !old(failed) && GetName(old(Rest()), maxField).Got?
      ensures v.Some? ==> GetName(old(Rest()), maxField) == Got(v.value, Rest())
    {
      hide GetString;
      v := String(MAX_IDENTITY_LENGTH);
    }

    method OptionalU16() returns (v: Option<Option<u16>>)
      requires Valid()
      modifies this
      ensures Valid() && failed == v.None?
      ensures v.Some? <==> !old(failed) && GetOptionalU16(old(Rest())).Got?
      ensures v.Some? ==> GetOptionalU16(old(Rest())) == Got(v.value, Rest())
    {
      hide GetU8, GetU16;
      var present :- U8();
      if present == 0 {
        return Some(None);
      }
      var x :- U16();
      return Some(Some(x));
    }

    method OptionalU64() returns (v: Option<Option<u64>>)
      requires Valid()
      modifies this
      ensures Valid() && failed == v.None?
      ensures v.Some? <==> !old(failed) && GetOptionalU64(old(Rest())).Got?
      ensures v.Some? ==> GetOptionalU64(old(Rest())) == Got(v.value, Rest())
    {
      hide GetU8, GetU64;
      var present :- U8();
      if present == 0 {
        return Some(None);
      }
      var x :- U64();
      return Some(Some(x));
    }

    method OptionalName() returns (v: Option<Option<Name>>)
      requires Valid()
      modifies this
      ensures Valid() && failed == v.None?
      ensures v.Some? <==> !old(failed) && GetOptionalName(old(Rest()), maxField).Got?
      ensures v.Some? ==> GetOptionalName(old(Rest()), maxField) == Got(v.value, Rest())
    {
      hide GetU8, GetString;
      var present :- U8();
      if present == 0 {
        return Some(None);
      }
      var x :- NameId();
      return Some(Some(x));
    }

    /** An element count, refused when it exceeds the octets that are left. */
    method Count() returns (v: Option<u32>)
      requires Valid()
      modifies this
      ensures Valid()
      ensures v.Some? <==> !old(failed) && GetCount(old(Rest())).Got?
      ensures v.Some? ==> !failed && GetCount(old(Rest())) == Got(v.value, Rest())
    {
      hide GetU32;
      var n :- U32();
      return if n > |input| - offset then None else Some(n);
    }

    method SampleBitmap() returns (v: Option<FieldMask>)
      requires Valid()
      modifies this
      ensures Valid() && failed == v.None?
      ensures v.Some? <==> !old(failed) && GetBitmap(old(Rest())).Got?
      ensures v.Some? ==> GetBitmap(old(Rest())) == Got(v.value, Rest())
    {
      hide GetU8;
      var mask: FieldMask := {};
      var count :- U8();
      var index := 0;
      while index < count
        invariant 0 <= index <= count
        invariant Valid() && !failed
        invariant GetListedFields(count - index, mask, Rest()) == GetBitmap(old(Rest()))
      {
        var field :- U8();
        if field >= FIELD_COUNT {
          failed := true;
          return None;
        }
        mask := mask + {field};
        index := index + 1;
      }
      return Some(mask);
    }

    method FieldValues(mask: FieldMask) returns (v: Option<seq<u64>>)
      requires Valid() && !failed
      modifies this
      ensures Valid() && failed == v.None? && (v.Some? ==> |v.value| == FIELD_COUNT)
      ensures v.Some? <==> GetFieldValues(mask, 0, NoValues(), old(Rest())).Got?
      ensures v.Some? ==> GetFieldValues(mask, 0, NoValues(), old(Rest())) == Got(v.value, Rest())
    {
      hide GetU64;
      var values := NoValues();
      var index := 0;
      while index < FIELD_COUNT
        invariant 0 <= index <= FIELD_COUNT == |values|
        invariant Valid() && !failed
        invariant GetFieldValues(mask, index, values, Rest()) == GetFieldValues(mask, 0, NoValues(), old(Rest()))
      {
        if index in mask {
          var x :- U64();
          values := values[index := x];
        }
        index := index + 1;
      }
      return Some(values);
    }
  }

  // ---- reading records ----------------------------------------------------------------------

  /** A list reading continued after some elements. */
  function After<T>(xs: seq<T>, more: Read<seq<T>>): (r: Read<seq<T>>)
    ensures xs == [] ==> r == more
    ensures more.Got? && more.value == [] ==> r == Got(xs, more.rest)
  {
    assert more.Got? ==> [] + more.value == more.value && xs + [] == xs;
    match more
    case Refused => Refused
    case Got(ys, rest) => Got(xs + ys, rest)
  }

  function AfterItems<T>(xs: seq<T>, more: Items<T>): Items<T> {
    more.(items := xs + more.items)
  }

  lemma Regroup<T>(xs: seq<T>, x: T, more: Read<seq<T>>)
    ensures After(xs + [x], more) == After(xs, After([x], more))
  {
    if more.Got? {
      assert xs + [x] + more.value == xs + ([x] + more.value);
    }
  }

  lemma RegroupItems<T>(xs: seq<T>, x: T, more: Items<T>)
    ensures AfterItems(xs + [x], more) == AfterItems(xs, AfterItems([x], more))
  {
    assert xs + [x] + more.items == xs + ([x] + more.items);
  }

  /** The mask word is read and then replaced by the listed fields. */
  method ReadSample(r: ByteReader) returns (x: Option<DurableSample>)
    requires r.Valid() && !r.failed
    modifies r
    ensures r.Valid()
    ensures x.Some? <==> GetSample(old(r.Rest()), r.maxField).Got?
    ensures x.Some? ==> !r.failed && GetSample(old(r.Rest()), r.maxField) == Got(x.value, r.Rest())
  {
    hide GetI64, GetU64, GetU32, GetU16, GetU8, GetString, GetOptionalU16, GetOptionalU64, GetOptionalName,
      ValidName, ValidPathName, GetBitmap, GetFieldValues;
    var observedNs :- r.I64();
    var domain :- r.NameId();
    if !ValidOptionalName(domain) {
      return None;
    }
    var receivedWall :- r.I64();
    var receivedSteady :- r.I64();
    var source :- r.NameId();
    if !ValidOptionalName(source) {
      return None;
    }
    var incarnation :- r.NameId();
    if !ValidOptionalName(incarnation) {
      return None;
    }
    var generation :- r.U64();
    var sequence :- r.U64();
    var authority :- r.U8();
    var _ :- r.U64();
    var reported :- r.SampleBitmap();
    var values :- r.FieldValues(reported);
    var state :- r.U8();
    var freshness :- r.U8();
    var quality :- r.U8();
    var ageNs :- r.I64();
    if state >= PRESSURE_STATE_COUNT {
      return None;
    }
    return Some(DurableSample(observedNs, domain, receivedWall, receivedSteady, source, incarnation, generation,
      sequence, authority, reported, values, state, freshness, quality, ageNs));
  }

  method ReadSamples(r: ByteReader, n: u32) returns (v: Option<seq<DurableSample>>)
    requires r.Valid() && !r.failed
    modifies r
    ensures r.Valid()
    ensures v.Some? <==> GetSamples(n, old(r.Rest()), r.maxField).Got?
    ensures v.Some? ==> !r.failed && GetSamples(n, old(r.Rest()), r.maxField) == Got(v.value, r.Rest())
  {
    hide GetSample;
    var xs: seq<DurableSample> := [];
    var index := 0;
    while index < n
      invariant 0 <= index <= n
      invariant r.Valid() && !r.failed
      invariant GetSamples(n, old(r.Rest()), r.maxField) == After(xs, GetSamples(n - index, r.Rest(), r.maxField))
    {
      var x :- ReadSample(r);
      Regroup(xs, x, GetSamples(n - index - 1, r.Rest(), r.maxField));
      xs := xs + [x];
      index := index + 1;
    }
    return Some(xs);
  }

  method DecodeQueueRecord(r: ByteReader, limits: PersistenceLimits) returns (x: Option<DurableQueueState>)
    requires r.Valid() && !r.failed && r.maxField == limits.maxRecordBytes
    modifies r
    ensures r.Valid()
    ensures x.Some? <==> GetQueueRecord(old(r.Rest()), limits).Got?
    ensures x.Some? ==> !r.failed && GetQueueRecord(old(r.Rest()), limits) == Got(x.value, r.Rest())
  {
    hide GetI64, GetU64, GetU32, GetU16, GetU8, GetString, GetOptionalU16, GetOptionalU64, GetOptionalName,
      ValidName, ValidPathName, GetCount, GetSamples;
    var device :- r.NameId();
    var port :- r.NameId();
    var queue :- r.U32();
    if !ValidPathName(device) || !ValidPathName(port) {
      return None;
    }
    var known :- r.U8();
    var trafficClass :- r.OptionalU16();
    var schedulingClass :- r.OptionalName();
    var origin :- r.U8();
    var metadataRevision :- r.U64();
    if schedulingClass.Some? && !ValidName(schedulingClass.value) {
      return None;
    }
    var n :- r.Count();
    if n > limits.maxSegmentRecords {
      return None;
    }
    var samples :- ReadSamples(r, n);
    return Some(DurableQueueState(QueuePath(device, port, queue), known != 0, trafficClass, schedulingClass,
      origin, metadataRevision, samples));
  }

  method ReadIncarnations(r: ByteReader, n: u32) returns (v: Option<seq<Incarnation>>)
    requires r.Valid() && !r.failed
    modifies r
    ensures r.Valid()
    ensures v.Some? <==> GetIncarnations(n, old(r.Rest()), r.maxField).Got?
    ensures v.Some? ==> !r.failed && GetIncarnations(n, old(r.Rest()), r.maxField) == Got(v.value, r.Rest())
  {
    hide GetString, GetU64, ValidName;
    var xs: seq<Incarnation> := [];
    var index := 0;
    while index < n
      invariant 0 <= index <= n
      invariant r.Valid() && !r.failed
      invariant GetIncarnations(n, old(r.Rest()), r.maxField) == After(xs, GetIncarnations(n - index, r.Rest(), r.maxField))
    {
      var token :- r.NameId();
      var ordinal :- r.U64();
      if !ValidName(token) {
        return None;
      }
      var x := Incarnation(token, ordinal);
      Regroup(xs, x, GetIncarnations(n - index - 1, r.Rest(), r.maxField));
      xs := xs + [x];
      index := index + 1;
    }
    return Some(xs);
  }

  method ReadSource(r: ByteReader) returns (x: Option<SourceRecord>)
    requires r.Valid() && !r.failed
    modifies r
    ensures r.Valid()
    ensures x.Some? <==> GetSource(old(r.Rest()), r.maxField).Got?
    ensures x.Some? ==> !r.failed && GetSource(old(r.Rest()), r.maxField) == Got(x.value, r.Rest())
  {
    hide GetI64, GetU64, GetU32, GetU16, GetU8, GetString, GetOptionalU16, GetOptionalU64, GetOptionalName,
      ValidName, ValidPathName, GetCount, GetIncarnations, ToU64;
    var id :- r.NameId();
    if !ValidName(id) {
      return None;
    }
    var authority :- r.U8();
    var declared :- r.U8();
    var incarnation :- r.NameId();
    if !ValidOptionalName(incarnation) {
      return None;
    }
    var ordinal :- r.U64();
    var sequence :- r.U64();
    var generation :- r.U64();
    var domain :- r.NameId();
    if !ValidOptionalName(domain) {
      return None;
    }
    var firstWall :- r.I64();
    var firstSteady :- r.I64();
    var lastWall :- r.I64();
    var lastSteady :- r.I64();
    var accepted :- r.U64();
    var fenced :- r.U64();
    var duplicates :- r.U64();
    var rejected :- r.U64();
    var lastObserved :- r.I64();
    var n :- r.Count();
    var recent :- ReadIncarnations(r, n);
    return Some(SourceRecord(id, authority, declared, incarnation, ordinal, sequence, generation, domain,
      firstWall, firstSteady, lastWall, lastSteady, accepted, fenced, duplicates, rejected,
      ToU64(lastObserved), recent));
  }

  method ReadSources(r: ByteReader, n: u32) returns (ok: bool, xs: seq<SourceRecord>)
    requires r.Valid() && !r.failed
    modifies r
    ensures r.Valid()
    ensures (var spec := GetSources(n, old(r.Rest()), r.maxField);
             ok == spec.ok && xs == spec.items && (ok ==> !r.failed && r.Rest() == spec.rest))
  {
    hide GetSource;
    xs := [];
    var index := 0;
    while index < n
      invariant 0 <= index <= n
      invariant r.Valid() && !r.failed
      invariant GetSources(n, old(r.Rest()), r.maxField) == AfterItems(xs, GetSources(n - index, r.Rest(), r.maxField))
    {
      var x := ReadSource(r);
      if x.None? {
        return false, xs;
      }
      RegroupItems(xs, x.value, GetSources(n - index - 1, r.Rest(), r.maxField));
      xs := xs + [x.value];
      index := index + 1;
    }
    return true, xs;
  }

  method DecodeSourceRegistry(r: ByteReader, before: seq<SourceRecord>) returns (ok: bool, xs: seq<SourceRecord>)
    requires r.Valid() && !r.failed
    modifies r
    ensures r.Valid()
    ensures (var spec := GetSourceRegistry(old(r.Rest()), r.maxField); ok == spec.ok && xs == before + spec.items)
  {
    hide GetCount, GetSources;
    var n := r.Count();
    if n.None? {
      return false, before;
    }
    ok, xs := ReadSources(r, n.value);
    xs := before + xs;
  }

  method ReadEvent(r: ByteReader) returns (x: Option<EventRecord>)
    requires r.Valid() && !r.failed
    modifies r
    ensures r.Valid()
    ensures x.Some? <==> GetEvent(old(r.Rest()), r.maxField).Got?
    ensures x.Some? ==> !r.failed && GetEvent(old(r.Rest()), r.maxField) == Got(x.value, r.Rest())
  {
    hide GetI64, GetU64, GetU32, GetU16, GetU8, GetString, GetOptionalU16, GetOptionalU64, GetOptionalName,
      ValidName, ValidPathName;
    var kind :- r.U8();
    var severity :- r.U8();
    if kind >= EVENT_KIND_COUNT {
      return None;
    }
    var receivedWall :- r.I64();
    var receivedSteady :- r.I64();
    var observedNs :- r.I64();
    var domain :- r.NameId();
    var device :- r.NameId();
    var port :- r.NameId();
    var queue :- r.U32();
    var source :- r.NameId();
    var incarnation :- r.NameId();
    var sequence :- r.U64();
    var revision :- r.U64();
    var detail :- r.String(512);
    if !ValidOptionalName(domain) || (device != [] && !ValidPathName(device))
       || (port != [] && !ValidPathName(port)) || !ValidOptionalName(source)
       || !ValidOptionalName(incarnation) {
      return None;
    }
    return Some(EventRecord(kind, severity, receivedWall, receivedSteady, observedNs, domain,
      QueuePath(device, port, queue), source, incarnation, sequence, revision, detail));
  }

  method ReadEvents(r: ByteReader, n: u32) returns (ok: bool, xs: seq<EventRecord>)
    requires r.Valid() && !r.failed
    modifies r
    ensures r.Valid()
    ensures (var spec := GetEvents(n, old(r.Rest()), r.maxField);
             ok == spec.ok && xs == spec.items && (ok ==> !r.failed && r.Rest() == spec.rest))
  {
    hide GetEvent;
    xs := [];
    var index := 0;
    while index < n
      invariant 0 <= index <= n
      invariant r.Valid() && !r.failed
      invariant GetEvents(n, old(r.Rest()), r.maxField) == AfterItems(xs, GetEvents(n - index, r.Rest(), r.maxField))
    {
      var x := ReadEvent(r);
      if x.None? {
        return false, xs;
      }
      RegroupItems(xs, x.value, GetEvents(n - index - 1, r.Rest(), r.maxField));
      xs := xs + [x.value];
      index := index + 1;
    }
    return true, xs;
  }

  method DecodeEventBatch(r: ByteReader, before: seq<EventRecord>) returns (ok: bool, xs: seq<EventRecord>)
    requires r.Valid() && !r.failed
    modifies r
    ensures r.Valid()
    ensures (var spec := GetEventBatch(old(r.Rest()), r.maxField); ok == spec.ok && xs == before + spec.items)
  {
    hide GetCount, GetEvents;
    var n := r.Count();
    if n.None? {
      return false, before;
    }
    ok, xs := ReadEvents(r, n.value);
    xs := before + xs;
  }

  method ReadTrafficClass(r: ByteReader) returns (x: Option<TrafficClass>)
    requires r.Valid() && !r.failed
    modifies r
    ensures r.Valid()
    ensures x.Some? <==> GetTrafficClass(old(r.Rest()), r.maxField).Got?
    ensures x.Some? ==> !r.failed && GetTrafficClass(old(r.Rest()), r.maxField) == Got(x.value, r.Rest())
  {
    hide GetI64, GetU64, GetU32, GetU16, GetU8, GetString, GetOptionalU16, GetOptionalU64, GetOptionalName,
      ValidName, ValidPathName;
    var id :- r.U16();
    var name :- r.String(128);
    var dscp :- r.OptionalU16();
    var priority :- r.OptionalU16();
    var schedulingClass :- r.OptionalName();
    if schedulingClass.Some? && !ValidName(schedulingClass.value) {
      return None;
    }
    return Some(TrafficClass(id, name, dscp, priority, schedulingClass));
  }

  method ReadTrafficClasses(r: ByteReader, n: u32) returns (ok: bool, xs: seq<TrafficClass>)
    requires r.Valid() && !r.failed
    modifies r
    ensures r.Valid()
    ensures (var spec := GetTrafficClasses(n, old(r.Rest()), r.maxField);
             ok == spec.ok && xs == spec.items && (ok ==> !r.failed && r.Rest() == spec.rest))
  {
    hide GetTrafficClass;
    xs := [];
    var index := 0;
    while index < n
      invariant 0 <= index <= n
      invariant r.Valid() && !r.failed
      invariant GetTrafficClasses(n, old(r.Rest()), r.maxField) == AfterItems(xs, GetTrafficClasses(n - index, r.Rest(), r.maxField))
    {
      var x := ReadTrafficClass(r);
      if x.None? {
        return false, xs;
      }
      RegroupItems(xs, x.value, GetTrafficClasses(n - index - 1, r.Rest(), r.maxField));
      xs := xs + [x.value];
      index := index + 1;
    }
    return true, xs;
  }

  method ReadSchedulingClass(r: ByteReader) returns (x: Option<SchedulingClass>)
    requires r.Valid() && !r.failed
    modifies r
    ensures r.Valid()
    ensures x.Some? <==> GetSchedulingClass(old(r.Rest()), r.maxField).Got?
    ensures x.Some? ==> !r.failed && GetSchedulingClass(old(r.Rest()), r.maxField) == Got(x.value, r.Rest())
  {
    hide GetI64, GetU64, GetU32, GetU16, GetU8, GetString, GetOptionalU16, GetOptionalU64, GetOptionalName,
      ValidName, ValidPathName;
    var id :- r.NameId();
    var mode :- r.String(64);
    if !ValidName(id) {
      return None;
    }
    var weight :- r.OptionalU64();
    return Some(SchedulingClass(id, mode, weight));
  }

  method ReadSchedulingClasses(r: ByteReader, n: u32) returns (ok: bool, xs: seq<SchedulingClass>)
    requires r.Valid() && !r.failed
    modifies r
    ensures r.Valid()
    ensures (var spec := GetSchedulingClasses(n, old(r.Rest()), r.maxField);
             ok == spec.ok && xs == spec.items && (ok ==> !r.failed && r.Rest() == spec.rest))
  {
    hide GetSchedulingClass;
    xs := [];
    var index := 0;
    while index < n
      invariant 0 <= index <= n
      invariant r.Valid() && !r.failed
      invariant GetSchedulingClasses(n, old(r.Rest()), r.maxField) == AfterItems(xs, GetSchedulingClasses(n - index, r.Rest(), r.maxField))
    {
      var x := ReadSchedulingClass(r);
      if x.None? {
        return false, xs;
      }
      RegroupItems(xs, x.value, GetSchedulingClasses(n - index - 1, r.Rest(), r.maxField));
      xs := xs + [x.value];
      index := index + 1;
    }
    return true, xs;
  }

  method ReadBinding(r: ByteReader) returns (x: Option<Binding>)
    requires r.Valid() && !r.failed
    modifies r
    ensures r.Valid()
    ensures x.Some? <==> GetBinding(old(r.Rest()), r.maxField).Got?
    ensures x.Some? ==> !r.failed && GetBinding(old(r.Rest()), r.maxField) == Got(x.value, r.Rest())
  {
    hide GetI64, GetU64, GetU32, GetU16, GetU8, GetString, GetOptionalU16, GetOptionalU64, GetOptionalName,
      ValidName, ValidPathName;
    var device :- r.NameId();
    var port :- r.NameId();
    var queue :- r.U32();
    if !ValidPathName(device) || !ValidPathName(port) {
      return None;
    }
    var trafficClass :- r.OptionalU16();
    var schedulingClass :- r.OptionalName();
    if schedulingClass.Some? && !ValidName(schedulingClass.value) {
      return None;
    }
    return Some(Binding(QueuePath(device, port, queue), trafficClass, schedulingClass));
  }

  method ReadBindings(r: ByteReader, n: u32) returns (ok: bool, xs: seq<Binding>)
    requires r.Valid() && !r.failed
    modifies r
    ensures r.Valid()
    ensures (var spec := GetBindings(n, old(r.Rest()), r.maxField);
             ok == spec.ok && xs == spec.items && (ok ==> !r.failed && r.Rest() == spec.rest))
  {
    hide GetBinding;
    xs := [];
    var index := 0;
    while index < n
      invariant 0 <= index <= n
      invariant r.Valid() && !r.failed
      invariant GetBindings(n, old(r.Rest()), r.maxField) == AfterItems(xs, GetBindings(n - index, r.Rest(), r.maxField))
    {
      var x := ReadBinding(r);
      if x.None? {
        return false, xs;
      }
      RegroupItems(xs, x.value, GetBindings(n - index - 1, r.Rest(), r.maxField));
      xs := xs + [x.value];
      index := index + 1;
    }
    return true, xs;
  }

  method ReadMetadataIdentity(r: ByteReader) returns (x: Option<(u64, u64, Name, u8)>)
    requires r.Valid() && !r.failed
    modifies r
    ensures r.Valid()
    ensures x.Some? <==> GetMetadataIdentity(old(r.Rest()), r.maxField).Got?
    ensures x.Some? ==> !r.failed && GetMetadataIdentity(old(r.Rest()), r.maxField) == Got(x.value, r.Rest())
  {
    hide GetU64, GetString, GetU8;
    var revision :- r.U64();
    var generation :- r.U64();
    var source :- r.NameId();
    var authority :- r.U8();
    return Some((revision, generation, source, authority));
  }

  /** Fills the table in as far as the value can be read. */
  method DecodeMetadataTable(r: ByteReader, before: Metadata) returns (ok: bool, table: Metadata)
    requires r.Valid() && !r.failed
    modifies r
    ensures r.Valid()
    ensures Filled(ok, table) == GetMetadata(old(r.Rest()), before, r.maxField)
  {
    hide GetMetadataIdentity, GetI64, ValidName, GetMetadataSections;
    table := before;
    var identity := ReadMetadataIdentity(r);
    if identity.None? {
      return false, table;
    }
    var (revision, generation, source, authority) := identity.value;
    table := table.(revision := revision, generation := generation);
    if !ValidName(source) {
      return false, table;
    }
    table := table.(source := source, authority := authority);
    var wall := r.I64();
    if wall.None? {
      return false, table;
    }
    table := table.(receivedWall := wall.value);
    var steady := r.I64();
    if steady.None? {
      return false, table;
    }
    table := table.(receivedSteady := steady.value);
    ok, table := DecodeMetadataSections(r, table);
  }

  method DecodeMetadataSections(r: ByteReader, before: Metadata) returns (ok: bool, table: Metadata)
    requires r.Valid() && !r.failed
    modifies r
    ensures r.Valid()
    ensures Filled(ok, table) == GetMetadataSections(old(r.Rest()), before, r.maxField)
  {
    hide GetCount, GetTrafficClasses, GetSchedulingClasses, GetBindings;
    table := before;
    var n := r.Count();
    if n.None? {
      return false, table;
    }
    var traffic: seq<TrafficClass>;
    ok, traffic := ReadTrafficClasses(r, n.value);
    table := table.(trafficClasses := table.trafficClasses + traffic);
    if !ok {
      return;
    }
    n := r.Count();
    if n.None? {
      return false, table;
    }
    var scheduling: seq<SchedulingClass>;
    ok, scheduling := ReadSchedulingClasses(r, n.value);
    table := table.(schedulingClasses := table.schedulingClasses + scheduling);
    if !ok {
      return;
    }
    n := r.Count();
    if n.None? {
      return false, table;
    }
    var bindings: seq<Binding>;
    ok, bindings := ReadBindings(r, n.value);
    table := table.(bindings := table.bindings + bindings);
  }

  method DecodeSession(r: ByteReader) returns (x: Option<Session>)
    requires r.Valid() && !r.failed
    modifies r
    ensures r.Valid()
    ensures x.Some? <==> GetSession(old(r.Rest()), r.maxField).Got?
    ensures x.Some? ==> !r.failed && GetSession(old(r.Rest()), r.maxField) == Got(x.value, r.Rest())
  {
    hide GetI64, GetU64, GetU32, GetU16, GetU8, GetString, GetOptionalU16, GetOptionalU64, GetOptionalName,
      ValidName, ValidPathName;
    var runtimeId :- r.String(MAX_RUNTIME_ID_BYTES);
    var policyVersion :- r.U32();
    var policyName :- r.String(128);
    var _ :- r.I64();
    var _ :- r.I64();
    var _ :- r.U32();
    return Some(Session(runtimeId, policyVersion, policyName));
  }

  // ---- the decoder ------------------------------------------------------------------------------

  /** Dispatches on the record's type. */
  method DecodeRecord(out0: Snapshot, kind: u8, value: bytes, limits: PersistenceLimits) returns (parsed: bool, out: Snapshot)
    requires |value| <= U64_MAX
    ensures Applied(parsed, out) == ApplyRecord(out0, kind, value, limits)
  {
    hide GetSession, GetQueueRecord, GetEventBatch, GetSourceRegistry, GetMetadata;
    out := out0;
    var r := new ByteReader(value, limits.maxRecordBytes);
    if kind == SESSION_HEADER {
      var read := DecodeSession(r);
      parsed := read.Some?;
      if parsed {
        var session := read.value;
        if session.runtimeId != [] {
          out := out.(runtimeId := session.runtimeId);
        }
        out := out.(policyVersion := session.policyVersion, policyName := session.policyName);
      }
    } else if kind == QUEUE_SNAPSHOT {
      var queue := DecodeQueueRecord(r, limits);
      parsed := queue.Some?;
      if parsed {
        out := out.(queues := out.queues + [queue.value]);
      }
    } else if kind == EVENT_BATCH {
      var events: seq<EventRecord>;
      parsed, events := DecodeEventBatch(r, out.events);
      out := out.(events := events);
    } else if kind == SOURCE_REGISTRY {
      var sources: seq<SourceRecord>;
      parsed, sources := DecodeSourceRegistry(r, out.sources);
      out := out.(sources := sources);
    } else if kind == METADATA_TABLE {
      var table: Metadata;
      parsed, table := DecodeMetadataTable(r, out.metadata);
      out := out.(metadata := table, hasMetadata := out.hasMetadata || parsed);
    } else {
      parsed := false;
    }
  }

  method ReadHead(payload: bytes, offset: nat, limits: PersistenceLimits) returns (head: Option<Head>)
    requires offset <= |payload| <= U64_MAX
    ensures head.Some? <==> GetHead(payload[offset..]).Got?
    ensures head.Some? ==> GetHead(payload[offset..]).value == head.value
  {
    hide GetU32, GetU16, GetU8;
    var r := new ByteReader(payload[offset..], limits.maxRecordBytes);
    var crc :- r.U32();
    var kind :- r.U8();
    var flags :- r.U8();
    var _ :- r.U16();
    var length :- r.U32();
    return Some(Head(crc, kind, flags, length));
  }

  /** One turn of the record loop. */
  method DecodeNext(payload: bytes, p: Progress, limits: PersistenceLimits) returns (next: Progress, goesOn: bool)
    requires p.offset + RECORD_HEADER_SIZE <= |payload| <= U64_MAX
    ensures (next, goesOn) == ReadRecord(payload, p, limits)
  {
    hide GetHead, ApplyRecord, Crc32c.Checksum, Crc32c.Word, PutPrefix;
    var read := ReadHead(payload, p.offset, limits);
    if read.None? {
      return p.(report := Damaged(p.report).(truncated := true)), false;
    }
    var head := read.value;
    if head.length > limits.maxRecordBytes {
      return p.(report := Damaged(p.report)), false;
    }
    if p.offset + RECORD_HEADER_SIZE + head.length > |payload| {
      return p.(report := Damaged(p.report).(truncated := true)), false;
    }
    var begin := p.offset + RECORD_HEADER_SIZE;
    var value := payload[begin..begin + head.length];
    var prefix := RecordPrefix(head.kind, head.flags, head.length);
    var crc := ChecksumRecord(prefix, value);
    if crc != head.crc {
      return p.(report := Rejected(p.report)), false;
    }
    var parsed, out := DecodeRecord(p.out, head.kind, value, limits);
    if !parsed {
      return Progress(out, Rejected(p.report), p.offset), false;
    }
    return Progress(out, p.report.(recordsParsed := p.report.recordsParsed + 1), begin + head.length), true;
  }

  /** Reads records until one is unusable or the payload ends. */
  method DecodeRecords(payload: bytes, start: Progress, limits: PersistenceLimits) returns (p: Progress)
    requires start.offset <= |payload| <= U64_MAX
    ensures p == ReadRecords(payload, start, limits)
  {
    hide ReadRecord;
    p := start;
    while p.offset + RECORD_HEADER_SIZE <= |payload|
      invariant p.offset <= |payload|
      invariant ReadRecords(payload, p, limits) == ReadRecords(payload, start, limits)
      decreases |payload| - p.offset
    {
      var next, goesOn := DecodeNext(payload, p, limits);
      if !goesOn {
        return next;
      }
      p := next;
    }
  }

  method ReadHeader(s: bytes, limits: PersistenceLimits) returns (x: Option<(Header, u32)>)
    requires |s| <= U64_MAX
    ensures x.Some? <==> GetHeader(s).Got?
    ensures x.Some? ==> GetHeader(s).value == x.value
  {
    hide GetU32, GetU64, GetI64, GetHeaderBack;
    var r := new ByteReader(s, limits.maxRecordBytes);
    var formatVersion :- r.U32();
    var headerSize :- r.U32();
    var crc :- r.U32();
    var h :- ReadHeaderBack(r, formatVersion, headerSize);
    return Some((h, crc));
  }

  method ReadHeaderBack(r: ByteReader, formatVersion: u32, headerSize: u32) returns (x: Option<Header>)
    requires r.Valid() && !r.failed
    modifies r
    ensures x.Some? <==> GetHeaderBack(formatVersion, headerSize, old(r.Rest())).Got?
    ensures x.Some? ==> GetHeaderBack(formatVersion, headerSize, old(r.Rest())).value == x.value
  {
    hide GetU32, GetU64, GetI64;
    var policyVersion :- r.U32();
    var runtimeIdLength :- r.U32();
    var flags :- r.U32();
    var createdWall :- r.I64();
    var createdSteady :- r.I64();
    var recordCount :- r.U64();
    var payloadBytes :- r.U64();
    var payloadCrc :- r.U32();
    var major :- r.U32();
    var minor :- r.U32();
    var patch :- r.U32();
    return Some(Header(formatVersion, headerSize, policyVersion, runtimeIdLength, flags, createdWall,
      createdSteady, recordCount, payloadBytes, payloadCrc, major, minor, patch));
  }

  /** Decodes whatever octets it is given, exactly as the grammar says. */
  method DecodeSnapshot(s: bytes, limits: PersistenceLimits) returns (status: Status, out: Snapshot, report: Report)
    requires |s| <= U64_MAX
    ensures Decoded(status, out, report) == DecodeSegment(s, limits)
  {
    hide GetHeader, ReadRecords, Crc32c.Checksum, Crc32c.Word;
    out, report := DEFAULT_SNAPSHOT, BLANK_REPORT;
    if !limits.Valid() {
      return Failure(InvalidArgument), out, report;
    }
    if |s| < HEADER_SIZE {
      return Failure(IntegrityFailure), out, report;
    }
    if s[..8] != MAGIC {
      return Failure(IntegrityFailure), out, report;
    }
    report := report.(magicValid := true);
    var read := ReadHeader(s[8..], limits);
    if read.None? {
      return Failure(IntegrityFailure), out, report;
    }
    var (h, crc) := read.value;
    report := report.(formatVersion := h.formatVersion, createdWall := h.createdWall,
                      recordsDeclared := h.recordCount, bytesDeclared := h.payloadBytes);
    if h.headerSize != HEADER_SIZE {
      return Failure(VersionMismatch), out, report;
    }
    var zeroed := s[..16] + [0, 0, 0, 0] + s[20..HEADER_SIZE];
    var sum := Crc32c.ChecksumOf(zeroed);
    if Crc32c.Word(sum) != crc {
      return Failure(IntegrityFailure), out, report;
    }
    report := report.(headerCrcValid := true);
    if h.formatVersion != FORMAT_VERSION {
      return Failure(VersionMismatch), out, report;
    }
    report := report.(versionSupported := true);
    if h.runtimeIdLength > MAX_RUNTIME_ID_BYTES {
      return Failure(IntegrityFailure), out, report;
    }
    var start := HEADER_SIZE + h.runtimeIdLength;
    if start > |s| {
      return Ok, out, Damaged(report).(truncated := true);
    }
    out := out.(runtimeId := s[HEADER_SIZE..start], createdWall := h.createdWall,
                createdSteady := h.createdSteady, policyVersion := h.policyVersion);
    var usable := h.payloadBytes;
    if usable > |s| - start {
      usable := |s| - start;
      report := Damaged(report).(truncated := true);
    }
    var payload := s[start..start + usable];
    sum := Crc32c.ChecksumOf(payload);
    if Crc32c.Word(sum) != h.payloadCrc {
      report := Damaged(report);
    } else {
      report := report.(payloadCrcValid := true);
    }
    var p := DecodeRecords(payload, Progress(out, report, 0), limits);
    report := p.report.(bytesConsumed := p.offset);
    if p.offset != usable {
      report := Damaged(report);
    }
    if report.recordsParsed < h.recordCount {
      report := Damaged(report);
    }
    return Ok, p.out, report;
  }
}
