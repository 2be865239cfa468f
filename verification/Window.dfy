/** Bucketed sliding windows over receive time. */
module Window {
  import opened Wrappers
  import opened Bytes
  import opened Checked
  import opened Circular
  import opened Evidence
  import opened Classification
  import opened History

  // ---- specifications of windows ----------------------------------------------------------

  datatype WindowSpec = WindowSpec(name: bytes, durationNs: i64, bucketNs: i64, minCovered: u32, maxBuckets: u64) {
    /** How many buckets a window of this shape has. */
    function BucketCount(): nat
      requires 0 < bucketNs && 0 <= durationNs
    {
      DivCeilU64(durationNs, bucketNs).value
    }

    predicate Valid() {
      && name != [] && 0 < bucketNs <= durationNs && 0 < maxBuckets
      && 0 < minCovered <= BucketCount() <= maxBuckets
    }
  }

  method ValidateWindowSpec(spec: WindowSpec) returns (status: Status)
    ensures status == Ok <==> spec.Valid()
  {
    if spec.name == [] {
      return Failure(InvalidArgument);
    }
    if spec.durationNs <= 0 {
      return Failure(InvalidArgument);
    }
    if spec.bucketNs <= 0 {
      return Failure(InvalidArgument);
    }
    if spec.bucketNs > spec.durationNs {
      return Failure(InvalidArgument);
    }
    if spec.maxBuckets == 0 {
      return Failure(InvalidArgument);
    }
    var bucketCount := DivCeilU64(spec.durationNs, spec.bucketNs);
    if bucketCount.None? {
      return Failure(Overflow);
    }
    if bucketCount.value > spec.maxBuckets {
      return Failure(LimitExceeded);
    }
    if spec.minCovered == 0 {
      return Failure(InvalidArgument);
    }
    if spec.minCovered > bucketCount.value {
      return Failure(InvalidArgument);
    }
    return Ok;
  }

  /** The start of the bucket that a time falls into. */
  function AlignBucket(value: int, bucketNs: int): int {
    if bucketNs <= 0 then value
    else
      var quotient := TruncatedQuotient(value, bucketNs);
      (if TruncatedRemainder(value, bucketNs) < 0 then quotient - 1 else quotient) * bucketNs
  }

  /** It is the greatest multiple of the bucket width that is not after the time. */
  lemma AlignIsFloor(value: int, bucketNs: int)
    requires bucketNs > 0
    ensures AlignBucket(value, bucketNs) <= value < AlignBucket(value, bucketNs) + bucketNs
    ensures exists k: int :: AlignBucket(value, bucketNs) == k * bucketNs
  {
    var q, r := TruncatedQuotient(value, bucketNs), TruncatedRemainder(value, bucketNs);
    var k := if r < 0 then q - 1 else q;
    assert AlignBucket(value, bucketNs) == k * bucketNs;
    assert (q - 1) * bucketNs == q * bucketNs - bucketNs;
  }

  lemma AlignMonotone(a: int, b: int, bucketNs: int)
    requires bucketNs > 0 && a <= b
    ensures AlignBucket(a, bucketNs) <= AlignBucket(b, bucketNs)
  {
    AlignIsFloor(a, bucketNs);
    AlignIsFloor(b, bucketNs);
    var j: int :| AlignBucket(a, bucketNs) == j * bucketNs;
    var k: int :| AlignBucket(b, bucketNs) == k * bucketNs;
    Grows(j - k, bucketNs);
    assert (j - k) * bucketNs == j * bucketNs - k * bucketNs;
  }

  function SubtractClamped(value: i64, delta: i64): i64 {
    if delta <= 0 then value
    else if value < I64_MIN + delta then I64_MIN
    else value - delta
  }

  // ---- buckets ------------------------------------------------------------------------------

  /** Drops, marks, pause frames, pause time, enqueues and dequeues, in this order. */
  const SUM_COUNT := 6

  type Sums = s: seq<u64> | |s| == 6 witness [0, 0, 0, 0, 0, 0]

  /** The advances of the six counters that windows add up. */
  type Deltas = s: seq<Delta> | |s| == 6
    witness [Delta(false, 0), Delta(false, 0), Delta(false, 0), Delta(false, 0), Delta(false, 0), Delta(false, 0)]

  datatype Observation = Observation(
    steadyNs: i64, occupancy: Option<u64>, deltas: Deltas, establishesCurrent: bool, anyUnknown: bool)

  datatype Span = Span(max: u64, min: u64, last: u64)

  type Occupancy = o: Span | o.min <= o.max witness Span(0, 0, 0)

  datatype Bucket = Bucket(
    start: int, count: nat, occupancy: Option<Occupancy>, sums: Sums,
    unknown: nat, nonCurrent: nat, saturations: nat, lastReceivedNs: int)

  function Blank(start: int): Bucket {
    Bucket(start, 0, None, [0, 0, 0, 0, 0, 0], 0, 0, 0, 0)
  }

  function Saturated(a: u64, b: u64): u64 {
    if a + b > U64_MAX then U64_MAX else a + b
  }

  function AddOccupancy(before: Option<Occupancy>, v: u64): Occupancy {
    match before
    case None => Span(v, v, v)
    case Some(o) => Span(if v > o.max then v else o.max, if v < o.min then v else o.min, v)
  }

  function Overflows(sum: u64, d: Delta): bool {
    d.known && sum + d.delta > U64_MAX
  }

  function AddSums(sums: Sums, deltas: Deltas): Sums {
    seq(SUM_COUNT, k requires 0 <= k < SUM_COUNT => if deltas[k].known then Saturated(sums[k], deltas[k].delta) else sums[k])
  }

  /** How many of the additions below k overflow. */
  function Overflowing(sums: Sums, deltas: Deltas, k: nat): nat
    requires k <= SUM_COUNT
  {
    if k == 0 then 0 else Overflowing(sums, deltas, k - 1) + (if Overflows(sums[k - 1], deltas[k - 1]) then 1 else 0)
  }

  /** One more observation in a bucket. */
  function Added(b: Bucket, o: Observation): (r: Bucket)
    ensures r.start == b.start
  {
    Bucket(b.start, b.count + 1,
           if o.occupancy.Some? then Some(AddOccupancy(b.occupancy, o.occupancy.value)) else b.occupancy,
           AddSums(b.sums, o.deltas),
           if o.anyUnknown then b.unknown + 1 else b.unknown,
           if o.establishesCurrent then b.nonCurrent else b.nonCurrent + 1,
           b.saturations + Overflowing(b.sums, o.deltas, SUM_COUNT),
           if o.steadyNs > b.lastReceivedNs then o.steadyNs else b.lastReceivedNs)
  }

  // ---- the accumulator as a value -------------------------------------------------------------

  /** Retained buckets in buffer order, with tallies. The specification also counts the
      observations that went away with evicted buckets. */
  datatype Accumulator = Accumulator(
    spec: WindowSpec, buckets: seq<Bucket>, evicted: nat, observations: nat, lateDropped: nat, evictedCount: nat)

  function Empty(spec: WindowSpec): Accumulator {
    Accumulator(spec, [], 0, 0, 0, 0)
  }

  /** Drops buckets from the front while they start before the cutoff. */
  function DropOld(w: Accumulator, cutoff: int): Accumulator
    decreases |w.buckets|
  {
    if w.buckets == [] || w.buckets[0].start >= cutoff then w
    else
      DropOld(w.(buckets := w.buckets[1..], evicted := w.evicted + 1,
                 evictedCount := w.evictedCount + w.buckets[0].count), cutoff)
  }

  function AfterExpiry(w: Accumulator, now: i64): Accumulator {
    DropOld(w, SubtractClamped(now, w.spec.durationNs))
  }

  /** The newest bucket with a given start. */
  function Find(buckets: seq<Bucket>, start: int): (r: Option<nat>)
    ensures r.Some? ==> r.value < |buckets| && buckets[r.value].start == start
    ensures r.None? ==> forall i :: 0 <= i < |buckets| ==> buckets[i].start != start
    decreases |buckets|
  {
    if buckets == [] then None
    else if buckets[|buckets| - 1].start == start then Some(|buckets| - 1)
    else Find(buckets[..|buckets| - 1], start)
  }

  /** A new bucket behind the newest; the oldest makes room if all are in use. */
  function Created(w: Accumulator, start: int): (r: Accumulator)
    requires w.spec.Valid()
    ensures r.buckets != [] && r.buckets[|r.buckets| - 1] == Blank(start)
  {
    if |w.buckets| < w.spec.BucketCount() then w.(buckets := w.buckets + [Blank(start)])
    else
      w.(buckets := w.buckets[1..] + [Blank(start)], evicted := w.evicted + 1,
         evictedCount := w.evictedCount + w.buckets[0].count)
  }

  /** Makes room for a start: none if it is older than everything retained, else an
      existing bucket, else a new one at the tail. */
  function Located(w: Accumulator, start: int): (r: (Accumulator, Option<nat>))
    requires w.spec.Valid()
    ensures r.1.Some? ==> r.1.value < |r.0.buckets| && r.0.buckets[r.1.value].start == start
  {
    var found := Find(w.buckets, start);
    if found.Some? then (w, found)
    else if w.buckets != [] && start < w.buckets[0].start then (w.(lateDropped := w.lateDropped + 1), None)
    else (Created(w, start), Some(|Created(w, start).buckets| - 1))
  }

  ghost predicate Wellformed(w: Accumulator) {
    w.spec.Valid() && |w.buckets| <= w.spec.BucketCount()
  }

  /** The observation goes into its bucket, if there is one for it. */
  function Placed(w: Accumulator, o: Observation): Accumulator
    requires w.spec.Valid()
  {
    var (u, index) := Located(w, AlignBucket(o.steadyNs, w.spec.bucketNs));
    if index.None? then u
    else u.(buckets := u.buckets[index.value := Added(u.buckets[index.value], o)])
  }

  function Observed(w: Accumulator, o: Observation): Accumulator
    requires w.spec.Valid()
  {
    DropOldKeeps(w.(observations := w.observations + 1), SubtractClamped(o.steadyNs, w.spec.durationNs));
    Placed(AfterExpiry(w.(observations := w.observations + 1), o.steadyNs), o)
  }

  lemma {:induction false} DropOldKeeps(w: Accumulator, cutoff: int)
    ensures (var v := DropOld(w, cutoff);
      && v.spec == w.spec && v.observations == w.observations && v.lateDropped == w.lateDropped
      && |v.buckets| <= |w.buckets| && v.buckets == w.buckets[|w.buckets| - |v.buckets|..]
      && v.evicted == w.evicted + |w.buckets| - |v.buckets|
      && (v.buckets != [] ==> v.buckets[0].start >= cutoff)
      && (forall i :: 0 <= i < |w.buckets| - |v.buckets| ==> w.buckets[i].start < cutoff)
      && forall b :: b in v.buckets ==> b in w.buckets)
    decreases |w.buckets|
  {
    if w.buckets != [] && w.buckets[0].start < cutoff {
      var u := w.(buckets := w.buckets[1..], evicted := w.evicted + 1, evictedCount := w.evictedCount + w.buckets[0].count);
      DropOldKeeps(u, cutoff);
    }
  }

  // ---- always: distinct, aligned, bounded, nothing uncounted -----------------------------------

  ghost predicate Distinct(buckets: seq<Bucket>) {
    forall i, j :: 0 <= i < j < |buckets| ==> buckets[i].start != buckets[j].start
  }

  ghost predicate Aligned(w: Accumulator) {
    forall b :: b in w.buckets ==> exists k: int :: b.start == k * w.spec.bucketNs
  }

  function Retained(buckets: seq<Bucket>): nat {
    if buckets == [] then 0 else buckets[0].count + Retained(buckets[1..])
  }

  ghost predicate Counted(w: Accumulator) {
    w.observations == Retained(w.buckets) + w.evictedCount + w.lateDropped
  }

  ghost predicate Sound(w: Accumulator) {
    Wellformed(w) && Distinct(w.buckets) && Aligned(w) && Counted(w)
  }

  lemma {:induction false} RetainedConcat(a: seq<Bucket>, b: seq<Bucket>)
    ensures Retained(a + b) == Retained(a) + Retained(b)
    decreases |a|
  {
    if a == [] {
      assert a + b == b;
    } else {
      assert (a + b)[1..] == a[1..] + b;
      RetainedConcat(a[1..], b);
    }
  }

  lemma RetainedUpdate(bs: seq<Bucket>, i: nat, b: Bucket)
    requires i < |bs|
    ensures Retained(bs[i := b]) == Retained(bs) - bs[i].count + b.count
  {
    assert bs == bs[..i] + ([bs[i]] + bs[i + 1..]) && bs[i := b] == bs[..i] + ([b] + bs[i + 1..]);
    RetainedConcat(bs[..i], [bs[i]] + bs[i + 1..]);
    RetainedConcat(bs[..i], [b] + bs[i + 1..]);
  }

  lemma {:induction false} DropOldCounts(w: Accumulator, cutoff: int)
    ensures (var v := DropOld(w, cutoff);
      Retained(v.buckets) + v.evictedCount == Retained(w.buckets) + w.evictedCount)
    decreases |w.buckets|
  {
    if w.buckets != [] && w.buckets[0].start < cutoff {
      DropOldCounts(w.(buckets := w.buckets[1..], evicted := w.evicted + 1,
                       evictedCount := w.evictedCount + w.buckets[0].count), cutoff);
    }
  }

  lemma ExpiredSound(w: Accumulator, now: i64)
    requires Sound(w)
    ensures Sound(AfterExpiry(w, now))
  {
    DropOldKeeps(w, SubtractClamped(now, w.spec.durationNs));
    DropOldCounts(w, SubtractClamped(now, w.spec.durationNs));
  }

  /** Before the observation is added to its bucket, one is still missing from the count. */
  lemma LocatedSound(w: Accumulator, start: int)
    requires Wellformed(w) && Distinct(w.buckets) && Aligned(w)
    requires w.observations == Retained(w.buckets) + w.evictedCount + w.lateDropped + 1
    requires exists k: int :: start == k * w.spec.bucketNs
    ensures (var (v, index) := Located(w, start);
      && Wellformed(v) && Distinct(v.buckets) && Aligned(v) && v.spec == w.spec
      && v.observations == Retained(v.buckets) + v.evictedCount + v.lateDropped + (if index.Some? then 1 else 0))
  {
    var blank := [Blank(start)];
    RetainedConcat(w.buckets, blank);
    if w.buckets != [] {
      RetainedConcat(w.buckets[1..], blank);
    }
    assert Retained(blank) == 0;
  }

  /** Whatever arrives in whatever order: buckets keep distinct aligned starts and stay
      within the window's count, and every observation is retained, evicted or late. */
  lemma ObservedSound(w: Accumulator, o: Observation)
    requires Sound(w)
    ensures Sound(Observed(w, o))
  {
    hide Located, AfterExpiry, Added;
    var before := w.(observations := w.observations + 1);
    var v := AfterExpiry(before, o.steadyNs);
    var cutoff := SubtractClamped(o.steadyNs, w.spec.durationNs);
    ExpiryIs(before, o.steadyNs);
    DropOldKeeps(before, cutoff);
    DropOldCounts(before, cutoff);
    var start := AlignBucket(o.steadyNs, w.spec.bucketNs);
    AlignIsFloor(o.steadyNs, w.spec.bucketNs);
    LocatedSound(v, start);
    var (u, index) := Located(v, start);
    if index.Some? {
      AddedCount(u.buckets[index.value], o);
      RetainedUpdate(u.buckets, index.value, Added(u.buckets[index.value], o));
    }
  }

  lemma ExpiryIs(w: Accumulator, now: i64)
    ensures AfterExpiry(w, now) == DropOld(w, SubtractClamped(now, w.spec.durationNs))
  {}

  lemma AddedCount(b: Bucket, o: Observation)
    ensures Added(b, o).count == b.count + 1
  {}
}
