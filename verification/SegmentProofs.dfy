/** What the segment format guarantees: round trip, safe truncation, detected damage. */
module SegmentProofs {
  import opened Wrappers
  import opened Bytes
  import opened Identity
  import opened SegmentSpec
  import opened SegmentLayout
  import Crc32c

  // ---- the normal form ----------------------------------------------------------

  ghost predicate NormalSample(x: DurableSample) {
    && Shaped(x)
    && ValidOptionalName(x.domain) && ValidOptionalName(x.source) && ValidOptionalName(x.incarnation)
    && (forall i :: i in x.reported ==> i < FIELD_COUNT)
    && (forall i :: 0 <= i < FIELD_COUNT && i !in x.reported ==> x.values[i] == 0)
    && x.state < PRESSURE_STATE_COUNT
  }

  ghost predicate NormalPath(p: QueuePath) {
    ValidPathName(p.device) && ValidPathName(p.port)
  }

  predicate NormalClass(name: Option<Name>) {
    name.Some? ==> ValidName(name.value)
  }

  ghost predicate NormalQueue(q: DurableQueueState) {
    && NormalPath(q.path) && NormalClass(q.schedulingClass)
    && forall x :: x in q.samples ==> NormalSample(x)
  }

  ghost predicate NormalSource(x: SourceRecord) {
    && ValidName(x.id) && ValidOptionalName(x.incarnation) && ValidOptionalName(x.clockDomain)
    && forall r :: r in x.recent ==> ValidName(r.token)
  }

  ghost predicate NormalEvent(x: EventRecord) {
    && x.kind < EVENT_KIND_COUNT && |x.detail| <= 512
    && ValidOptionalName(x.domain) && ValidOptionalName(x.source) && ValidOptionalName(x.incarnation)
    && (x.path.device == [] || ValidPathName(x.path.device))
    && (x.path.port == [] || ValidPathName(x.path.port))
  }

  ghost predicate NormalTrafficClass(x: TrafficClass) {
    |x.name| <= 128 && NormalClass(x.schedulingClass)
  }

  ghost predicate NormalSchedulingClass(x: SchedulingClass) {
    ValidName(x.id) && |x.mode| <= 64
  }

  ghost predicate NormalBinding(x: Binding) {
    NormalPath(x.path) && NormalClass(x.schedulingClass)
  }

  ghost predicate NormalMetadata(m: Metadata) {
    && ValidName(m.source)
    && (forall x :: x in m.trafficClasses ==> NormalTrafficClass(x))
    && (forall x :: x in m.schedulingClasses ==> NormalSchedulingClass(x))
    && (forall x :: x in m.bindings ==> NormalBinding(x))
  }

  /** Names as their constructor admits them, unreported values zero, absent metadata blank. */
  ghost predicate Normal(x: Snapshot) {
    && |x.policyName| <= 128
    && (forall q :: q in x.queues ==> NormalQueue(q))
    && (forall r :: r in x.sources ==> NormalSource(r))
    && (forall e :: e in x.events ==> NormalEvent(e))
    && (if x.hasMetadata then NormalMetadata(x.metadata) else x.metadata == DEFAULT_METADATA)
  }

  /** A reader also refuses a queue with more samples than a segment may hold records. */
  predicate SamplesReadable(x: Snapshot, limits: PersistenceLimits) {
    forall q :: q in x.queues ==> |q.samples| <= limits.maxSegmentRecords
  }

  // ---- round trips, field by field ------------------------------------------------

  /** The fields of the mask from position i on. */
  function FieldsFrom(mask: FieldMask, i: nat): FieldMask {
    set f | i <= f < FIELD_COUNT && f in mask
  }

  lemma FieldListStep(mask: FieldMask, i: nat)
    requires i < FIELD_COUNT
    ensures i in mask ==> FieldList(mask, i) == [i] + FieldList(mask, i + 1)
    ensures i !in mask ==> FieldList(mask, i) == FieldList(mask, i + 1)
  {}

  lemma FieldListEnd(mask: FieldMask)
    ensures FieldList(mask, FIELD_COUNT) == []
  {}

  lemma {:induction false} ListedFieldsRoundTrip(mask: FieldMask, i: nat, seen: FieldMask, tail: bytes)
    requires i <= FIELD_COUNT
    ensures GetListedFields(|FieldList(mask, i)|, seen, FieldList(mask, i) + tail)
         == Got(seen + FieldsFrom(mask, i), tail)
    decreases FIELD_COUNT - i
  {
    hide FieldList, FieldsFrom;
    FieldsFromStep(mask, i);
    if i == FIELD_COUNT {
      FieldListEnd(mask);
      assert [] + tail == tail && seen + {} == seen;
    } else {
      FieldListStep(mask, i);
      var rest := FieldList(mask, i + 1) + tail;
      if i in mask {
        ConsThen(i, FieldList(mask, i + 1), tail);
        ListedFieldsRoundTrip(mask, i + 1, seen + {i}, tail);
        assert GetU8([i] + rest) == Got(i, rest);
        UnionAssociates(seen, i, FieldsFrom(mask, i + 1));
      } else {
        ListedFieldsRoundTrip(mask, i + 1, seen, tail);
      }
    }
  }

  lemma FieldsFromStep(mask: FieldMask, i: nat)
    requires i <= FIELD_COUNT
    ensures i == FIELD_COUNT ==> FieldsFrom(mask, i) == {}
    ensures i < FIELD_COUNT && i in mask ==> FieldsFrom(mask, i) == {i} + FieldsFrom(mask, i + 1)
    ensures i < FIELD_COUNT && i !in mask ==> FieldsFrom(mask, i) == FieldsFrom(mask, i + 1)
  {}

  lemma UnionAssociates(seen: FieldMask, i: nat, others: FieldMask)
    requires i < 64
    ensures seen + {i} + others == seen + ({i} + others)
  {}

  lemma ConsThen(b: byte, s: bytes, tail: bytes)
    ensures ([b] + s) + tail == [b] + (s + tail)
  {}

  lemma BitmapRoundTrip(mask: FieldMask, tail: bytes)
    requires forall i :: i in mask ==> i < FIELD_COUNT
    ensures GetBitmap(PutBitmap(mask, tail)) == Got(mask, tail)
  {
    ListedFieldsRoundTrip(mask, 0, {}, tail);
    assert {} + FieldsFrom(mask, 0) == mask;
  }

  lemma {:induction false} FieldValuesRoundTrip(mask: FieldMask, values: seq<u64>, i: nat, partial: seq<u64>, tail: bytes)
    requires i <= FIELD_COUNT == |values| == |partial|
    requires forall j :: 0 <= j < i ==> partial[j] == values[j]
    requires forall j :: i <= j < FIELD_COUNT ==> partial[j] == 0
    requires forall j :: 0 <= j < FIELD_COUNT && j !in mask ==> values[j] == 0
    ensures GetFieldValues(mask, i, partial, PutFieldValues(mask, values, i, tail)) == Got(values, tail)
    decreases FIELD_COUNT - i
  {
    if i == FIELD_COUNT {
      assert partial == values;
    } else if i in mask {
      FieldValuesRoundTrip(mask, values, i + 1, partial[i := values[i]], tail);
    } else {
      FieldValuesRoundTrip(mask, values, i + 1, partial, tail);
    }
  }

  lemma SampleRoundTrip(x: DurableSample, tail: bytes, maxField: nat)
    requires NormalSample(x) && |PutSample(x, tail)| <= maxField
    ensures GetSample(PutSample(x, tail), maxField) == Got(x, tail)
    ensures |PutSample(x, tail)| > |tail|
  {
    hide PutI64, PutU64, PutU8, PutString, PutBitmap, PutFieldValues, GetI64, GetU64, GetU8, GetString,
      GetBitmap, GetFieldValues, ValidName, MaskAsU64;
    var r := x.reported;
    var states := PutU8(x.state, PutU8(x.freshness, PutU8(x.quality, PutI64(x.ageNs, tail))));
    var values := PutFieldValues(r, x.values, 0, states);
    FieldValuesRoundTrip(r, x.values, 0, NoValues(), states);
    BitmapRoundTrip(r, values);
    NameIsBounded(x.domain);
    NameIsBounded(x.source);
    NameIsBounded(x.incarnation);
    BitmapSize(r, values);
  }

  lemma NameIsBounded(s: bytes)
    ensures ValidName(s) ==> |s| <= MAX_IDENTITY_LENGTH
  {}

  lemma BitmapSize(mask: FieldMask, tail: bytes)
    ensures |PutBitmap(mask, tail)| >= 1 + |tail|
  {}

  lemma {:induction false} SamplesRoundTrip(xs: seq<DurableSample>, tail: bytes, maxField: nat)
    requires forall x :: x in xs ==> Shaped(x) && NormalSample(x)
    requires |PutSamples(xs, tail)| <= maxField
    ensures GetSamples(|xs|, PutSamples(xs, tail), maxField) == Got(xs, tail)
  {
    hide GetSample, PutSample, NormalSample;
    if xs != [] {
      SampleRoundTrip(xs[0], PutSamples(xs[1..], tail), maxField);
      SamplesRoundTrip(xs[1..], tail, maxField);
      assert [xs[0]] + xs[1..] == xs;
    }
  }

  lemma QueueRoundTrip(q: DurableQueueState, limits: PersistenceLimits)
    requires NormalQueue(q) && |q.samples| <= limits.maxSegmentRecords
    requires |PutQueueRecord(q, [])| <= limits.maxRecordBytes && |PutQueueRecord(q, [])| < U32_LIMIT
    ensures GetQueueRecord(PutQueueRecord(q, []), limits) == Got(q, [])
  {
    hide PutI64, PutU64, PutU32, PutU8, PutString, PutOptionalU16, PutOptionalName, PutSamples,
      GetI64, GetU64, GetU32, GetU8, GetString, GetOptionalU16, GetOptionalName, GetSamples, ValidName;
    PathNameIsName(q.path.device);
    PathNameIsName(q.path.port);
    if q.schedulingClass.Some? {
      NameIsBounded(q.schedulingClass.value);
    }
    SamplesRoundTrip(q.samples, [], limits.maxRecordBytes);
    CountRoundTrip(|q.samples|, PutSamples(q.samples, []));
  }

  lemma PathNameIsName(s: bytes)
    requires ValidPathName(s)
    ensures ValidName(s) && |s| <= MAX_IDENTITY_LENGTH
  {}

  /** A count the encoder wrote is never refused: every element took an octet. */
  lemma CountRoundTrip(n: nat, tail: bytes)
    requires n <= |tail| && n < U32_LIMIT
    ensures GetCount(PutU32(Cast32(n), tail)) == Got(n, tail)
  {
    hide PutU32, GetU32;
  }

  lemma {:induction false} IncarnationsRoundTrip(xs: seq<Incarnation>, tail: bytes, maxField: nat)
    requires forall x :: x in xs ==> ValidName(x.token)
    requires |PutIncarnations(xs, tail)| <= maxField
    ensures GetIncarnations(|xs|, PutIncarnations(xs, tail), maxField) == Got(xs, tail)
  {
    hide PutU64, GetU64, PutString, GetString, ValidName;
    if xs != [] {
      NameIsBounded(xs[0].token);
      IncarnationsRoundTrip(xs[1..], tail, maxField);
      assert [xs[0]] + xs[1..] == xs;
    }
  }

  lemma SourceRoundTrip(x: SourceRecord, tail: bytes, maxField: nat)
    requires NormalSource(x) && |PutSource(x, tail)| <= maxField && |PutSource(x, tail)| < U32_LIMIT
    ensures GetSource(PutSource(x, tail), maxField) == Got(x, tail)
  {
    hide PutI64, PutU64, PutU32, PutU8, PutString, PutIncarnations, GetI64, GetU64, GetU32, GetU8,
      GetString, GetIncarnations, GetCount, ValidName, Cast32;
    NameIsBounded(x.id);
    NameIsBounded(x.incarnation);
    NameIsBounded(x.clockDomain);
    CountRoundTrip(|x.recent|, PutIncarnations(x.recent, tail));
    IncarnationsRoundTrip(x.recent, tail, maxField);
  }

  lemma {:induction false} SourcesRoundTrip(xs: seq<SourceRecord>, tail: bytes, maxField: nat)
    requires forall x :: x in xs ==> NormalSource(x)
    requires |PutSources(xs, tail)| <= maxField && |PutSources(xs, tail)| < U32_LIMIT
    ensures GetSources(|xs|, PutSources(xs, tail), maxField) == Items(true, xs, tail)
  {
    hide PutSource, GetSource;
    if xs != [] {
      SourceRoundTrip(xs[0], PutSources(xs[1..], tail), maxField);
      SourcesRoundTrip(xs[1..], tail, maxField);
      assert [xs[0]] + xs[1..] == xs;
    }
  }

  lemma SourceRegistryRoundTrip(xs: seq<SourceRecord>, maxField: nat)
    requires forall x :: x in xs ==> NormalSource(x)
    requires |PutSourceRegistry(xs, [])| <= maxField && |PutSourceRegistry(xs, [])| < U32_LIMIT
    ensures GetSourceRegistry(PutSourceRegistry(xs, []), maxField) == Items(true, xs, [])
  {
    hide PutSources, GetSources, PutU32;
    CountRoundTrip(|xs|, PutSources(xs, []));
    SourcesRoundTrip(xs, [], maxField);
  }

  lemma EventRoundTrip(x: EventRecord, tail: bytes, maxField: nat)
    requires NormalEvent(x) && |PutEvent(x, tail)| <= maxField
    ensures GetEvent(PutEvent(x, tail), maxField) == Got(x, tail)
  {
    hide PutI64, PutU64, PutU32, PutU8, PutString, GetI64, GetU64, GetU32, GetU8, GetString, ValidName;
    NameIsBounded(x.domain);
    NameIsBounded(x.path.device);
    NameIsBounded(x.path.port);
    NameIsBounded(x.source);
    NameIsBounded(x.incarnation);
  }

  lemma {:induction false} EventsRoundTrip(xs: seq<EventRecord>, tail: bytes, maxField: nat)
    requires forall x :: x in xs ==> NormalEvent(x)
    requires |PutEvents(xs, tail)| <= maxField
    ensures GetEvents(|xs|, PutEvents(xs, tail), maxField) == Items(true, xs, tail)
  {
    hide PutEvent, GetEvent;
    if xs != [] {
      EventRoundTrip(xs[0], PutEvents(xs[1..], tail), maxField);
      EventsRoundTrip(xs[1..], tail, maxField);
      assert [xs[0]] + xs[1..] == xs;
    }
  }

  lemma EventBatchRoundTrip(xs: seq<EventRecord>, maxField: nat)
    requires forall x :: x in xs ==> NormalEvent(x)
    requires |PutEventBatch(xs, [])| <= maxField && |PutEventBatch(xs, [])| < U32_LIMIT
    ensures GetEventBatch(PutEventBatch(xs, []), maxField) == Items(true, xs, [])
  {
    hide PutEvents, GetEvents, PutU32;
    CountRoundTrip(|xs|, PutEvents(xs, []));
    EventsRoundTrip(xs, [], maxField);
  }

  lemma TrafficClassRoundTrip(x: TrafficClass, tail: bytes, maxField: nat)
    requires NormalTrafficClass(x) && |PutTrafficClass(x, tail)| <= maxField
    ensures GetTrafficClass(PutTrafficClass(x, tail), maxField) == Got(x, tail)
  {
    hide PutU16, PutString, PutOptionalU16, PutOptionalName, GetU16, GetString, GetOptionalU16,
      GetOptionalName, ValidName;
    if x.schedulingClass.Some? {
      NameIsBounded(x.schedulingClass.value);
    }
  }

  lemma {:induction false} TrafficClassesRoundTrip(xs: seq<TrafficClass>, tail: bytes, maxField: nat)
    requires forall x :: x in xs ==> NormalTrafficClass(x)
    requires |PutTrafficClasses(xs, tail)| <= maxField
    ensures GetTrafficClasses(|xs|, PutTrafficClasses(xs, tail), maxField) == Items(true, xs, tail)
  {
    hide PutTrafficClass, GetTrafficClass;
    if xs != [] {
      TrafficClassRoundTrip(xs[0], PutTrafficClasses(xs[1..], tail), maxField);
      TrafficClassesRoundTrip(xs[1..], tail, maxField);
      assert [xs[0]] + xs[1..] == xs;
    }
  }

  lemma SchedulingClassRoundTrip(x: SchedulingClass, tail: bytes, maxField: nat)
    requires NormalSchedulingClass(x) && |PutSchedulingClass(x, tail)| <= maxField
    ensures GetSchedulingClass(PutSchedulingClass(x, tail), maxField) == Got(x, tail)
  {
    hide PutString, PutOptionalU64, GetString, GetOptionalU64, ValidName;
    NameIsBounded(x.id);
  }

  lemma {:induction false} SchedulingClassesRoundTrip(xs: seq<SchedulingClass>, tail: bytes, maxField: nat)
    requires forall x :: x in xs ==> NormalSchedulingClass(x)
    requires |PutSchedulingClasses(xs, tail)| <= maxField
    ensures GetSchedulingClasses(|xs|, PutSchedulingClasses(xs, tail), maxField) == Items(true, xs, tail)
  {
    hide PutSchedulingClass, GetSchedulingClass;
    if xs != [] {
      SchedulingClassRoundTrip(xs[0], PutSchedulingClasses(xs[1..], tail), maxField);
      SchedulingClassesRoundTrip(xs[1..], tail, maxField);
      assert [xs[0]] + xs[1..] == xs;
    }
  }

  lemma BindingRoundTrip(x: Binding, tail: bytes, maxField: nat)
    requires NormalBinding(x) && |PutBinding(x, tail)| <= maxField
    ensures GetBinding(PutBinding(x, tail), maxField) == Got(x, tail)
  {
    hide PutU32, PutString, PutOptionalU16, PutOptionalName, GetU32, GetString, GetOptionalU16,
      GetOptionalName, ValidName;
    PathNameIsName(x.path.device);
    PathNameIsName(x.path.port);
    if x.schedulingClass.Some? {
      NameIsBounded(x.schedulingClass.value);
    }
  }

  lemma {:induction false} BindingsRoundTrip(xs: seq<Binding>, tail: bytes, maxField: nat)
    requires forall x :: x in xs ==> NormalBinding(x)
    requires |PutBindings(xs, tail)| <= maxField
    ensures GetBindings(|xs|, PutBindings(xs, tail), maxField) == Items(true, xs, tail)
  {
    hide PutBinding, GetBinding;
    if xs != [] {
      BindingRoundTrip(xs[0], PutBindings(xs[1..], tail), maxField);
      BindingsRoundTrip(xs[1..], tail, maxField);
      assert [xs[0]] + xs[1..] == xs;
    }
  }

  lemma MetadataSectionsRoundTrip(m: Metadata, maxField: nat)
    requires NormalMetadata(m)
    requires |PutMetadataSections(m, [])| <= maxField && |PutMetadataSections(m, [])| < U32_LIMIT
    ensures GetMetadataSections(PutMetadataSections(m, []),
              m.(trafficClasses := [], schedulingClasses := [], bindings := []), maxField) == Filled(true, m)
  {
    hide PutU32, PutTrafficClasses, PutSchedulingClasses, PutBindings, GetCount, Cast32,
      GetTrafficClasses, GetSchedulingClasses, GetBindings, NormalBinding, NormalSchedulingClass,
      NormalTrafficClass, ValidName;
    var s3 := PutBindings(m.bindings, []);
    var s2 := PutSchedulingClasses(m.schedulingClasses, PutU32(Cast32(|m.bindings|), s3));
    var s1 := PutTrafficClasses(m.trafficClasses, PutU32(Cast32(|m.schedulingClasses|), s2));
    CountRoundTrip(|m.trafficClasses|, s1);
    TrafficClassesRoundTrip(m.trafficClasses, PutU32(Cast32(|m.schedulingClasses|), s2), maxField);
    CountRoundTrip(|m.schedulingClasses|, s2);
    SchedulingClassesRoundTrip(m.schedulingClasses, PutU32(Cast32(|m.bindings|), s3), maxField);
    CountRoundTrip(|m.bindings|, s3);
    BindingsRoundTrip(m.bindings, [], maxField);
    assert [] + m.trafficClasses == m.trafficClasses;
    assert [] + m.schedulingClasses == m.schedulingClasses;
    assert [] + m.bindings == m.bindings;
  }

  lemma MetadataRoundTrip(m: Metadata, maxField: nat)
    requires NormalMetadata(m)
    requires |PutMetadata(m, [])| <= maxField && |PutMetadata(m, [])| < U32_LIMIT
    ensures GetMetadata(PutMetadata(m, []), DEFAULT_METADATA, maxField) == Filled(true, m)
  {
    hide PutU64, PutString, PutU8, PutI64, PutMetadataSections, GetU64, GetString, GetU8, GetI64,
      GetMetadataSections, ValidName;
    NameIsBounded(m.source);
    MetadataSectionsRoundTrip(m, maxField);
  }

  lemma SessionRoundTrip(x: Snapshot, maxField: nat)
    requires |x.runtimeId| <= MAX_RUNTIME_ID_BYTES && |x.policyName| <= 128
    requires |PutSession(x, [])| <= maxField
    ensures GetSession(PutSession(x, []), maxField)
         == Got(Session(x.runtimeId, x.policyVersion, x.policyName), [])
  {
    hide PutI64, PutU32, PutString, GetI64, GetU32, GetString;
  }
}
