/** The bucket accumulator over its circular array, and what it aggregates. */
module Buckets {
  import opened Wrappers
  import opened Bytes
  import opened Checked
  import opened Circular
  import opened Evidence
  import opened Window
  import opened WindowRefinement

  class BucketAccumulator {
    var spec: WindowSpec
    var configured: bool
    var buckets: array<Bucket>
    var size: nat
    var head: nat
    var evicted: nat
    var observations: nat
    var lateDropped: nat
    // Observations that went away with evicted buckets.
    ghost var evictedCount: nat

    ghost predicate Valid()
      reads this
    {
      && (configured ==> spec.Valid() && buckets.Length == spec.BucketCount() > 0)
      && (buckets.Length == 0 ==> size == 0) && size <= buckets.Length
      && (buckets.Length > 0 ==> head < buckets.Length)
    }

    ghost function View(): (w: Accumulator)
      requires Valid()
      reads this, buckets
      ensures |w.buckets| == size
    {
      Accumulator(spec, Elements(buckets[..], head, size), evicted, observations, lateDropped, evictedCount)
    }

    constructor ()
      ensures Valid() && !configured && fresh(buckets)
    {
      spec, configured := WindowSpec([], 0, 0, 1, 64), false;
      buckets := new Bucket[0];
      size, head, evicted, observations, lateDropped, evictedCount := 0, 0, 0, 0, 0, 0;
    }

    method Configure(spec: WindowSpec) returns (status: Status)
      requires Valid()
      modifies this
      ensures Valid() && (status == Ok <==> spec.Valid())
      ensures status == Ok ==> configured && fresh(buckets) && View() == Empty(spec)
      ensures status != Ok ==> buckets == old(buckets) && View() == old(View())
    {
      status := ValidateWindowSpec(spec);
      if status != Ok {
        return;
      }
      this.spec := spec;
      buckets := new Bucket[spec.BucketCount()](_ => Blank(0));
      size, head, evicted, observations, lateDropped, evictedCount := 0, 0, 0, 0, 0, 0;
      configured := true;
    }

    /** Forgets buckets from the head while they start before the cutoff. */
    method Expire(now: i64)
      requires Valid() && configured
      modifies this`size, this`head, this`evicted, this`evictedCount, buckets
      ensures Valid() && View() == AfterExpiry(old(View()), now)
    {
      hide DropOld;
      DropStep(View(), SubtractClamped(now, spec.durationNs));
      if size == 0 {
        return;
      }
      var cutoff := SubtractClamped(now, spec.durationNs);
      while size > 0 && buckets[head].start < cutoff
        invariant Valid() && DropOld(View(), cutoff) == DropOld(old(View()), cutoff)
        decreases size
      {
        DropStep(View(), cutoff);
        ghost var before := View();
        DropCell(buckets[..], head, size, Blank(0));
        evictedCount := evictedCount + buckets[head].count;
        buckets[head] := Blank(0);
        head := Slot(head, 1, buckets.Length);
        size := size - 1;
        evicted := evicted + 1;
        assert View() == before.(buckets := before.buckets[1..], evicted := before.evicted + 1,
                                 evictedCount := before.evictedCount + before.buckets[0].count);
      }
      DropStep(View(), cutoff);
    }

    /** The newest bucket with a start, by its place from the head. */
    method FindBucket(start: int) returns (place: Option<nat>)
      requires Valid() && configured
      ensures place == Find(View().buckets, start)
    {
      hide Find, Elements;
      ghost var all := View().buckets;
      var offset := 0;
      assert all[..size] == all;
      while offset < size
        invariant 0 <= offset <= size
        invariant Find(all, start) == Find(all[..size - offset], start)
      {
        var cell := Slot(head, size - 1 - offset, buckets.Length);
        ElementAt(buckets[..], head, size, size - 1 - offset);
        FindStep(all[..size - offset], start);
        if buckets[cell].start == start {
          return Some(size - 1 - offset);
        }
        assert all[..size - offset][..size - offset - 1] == all[..size - offset - 1];
        offset := offset + 1;
      }
      FindStep(all[..0], start);
      return None;
    }

    /** A new bucket behind the newest; the oldest makes room if all are in use. */
    method CreateBucket(start: int)
      requires Valid() && configured
      modifies this`size, this`head, this`evicted, this`evictedCount, buckets
      ensures Valid() && size > 0
      ensures View() == Created(old(View()), start)
    {
      hide Elements;
      if size < buckets.Length {
        AppendCell(buckets[..], head, size, Blank(start));
        buckets[Slot(head, size, buckets.Length)] := Blank(start);
        size := size + 1;
        return;
      }
      ElementAt(buckets[..], head, size, 0);
      RotateCell(buckets[..], head, Blank(start));
      evictedCount := evictedCount + buckets[head].count;
      buckets[head] := Blank(start);
      head := Slot(head, 1, buckets.Length);
      evicted := evicted + 1;
    }

    /** The place of the bucket with a start, made if need be. */
    method FindOrCreateBucket(start: int) returns (place: Option<nat>)
      requires Valid() && configured
      modifies this`size, this`head, this`evicted, this`evictedCount, this`lateDropped, buckets
      ensures Valid() && (View(), place) == Located(old(View()), start)
    {
      hide Find, Elements;
      place := FindBucket(start);
      if place.Some? {
        return;
      }
      if size > 0 {
        ElementAt(buckets[..], head, size, 0);
        if start < buckets[head].start {
          lateDropped := lateDropped + 1;
          return None;
        }
      }
      CreateBucket(start);
      return Some(size - 1);
    }

    /** Folds an observation into the bucket of its time. */
    method Observe(o: Observation)
      requires Valid()
      modifies this, buckets
      ensures Valid() && buckets == old(buckets) && configured == old(configured)
      ensures View() == if configured then Observed(old(View()), o) else old(View())
    {
      hide AfterExpiry, Located, Added, Elements;
      if !configured {
        return;
      }
      observations := observations + 1;
      Expire(o.steadyNs);
      var start := AlignBucket(o.steadyNs, spec.bucketNs);
      var place := FindOrCreateBucket(start);
      if place.None? {
        return;
      }
      var cell := Slot(head, place.value, buckets.Length);
      ElementAt(buckets[..], head, size, place.value);
      ReplaceCell(buckets[..], head, size, place.value, Added(buckets[cell], o));
      AddTo(cell, o);
    }

    /** The cell's tallies are updated in place. */
    method AddTo(cell: nat, o: Observation)
      requires cell < buckets.Length
      modifies buckets
      ensures buckets[..] == old(buckets[..][cell := Added(buckets[cell], o)])
    {
      var b := buckets[cell];
      b := b.(count := b.count + 1);
      if o.occupancy.Some? {
        b := b.(occupancy := Some(AddOccupancy(b.occupancy, o.occupancy.value)));
      }
      var sums: Sums, saturations := b.sums, b.saturations;
      for k := 0 to SUM_COUNT
        invariant forall j :: 0 <= j < SUM_COUNT ==>
          sums[j] == if j < k then AddSums(b.sums, o.deltas)[j] else b.sums[j]
        invariant saturations == b.saturations + Overflowing(b.sums, o.deltas, k)
      {
        if o.deltas[k].known {
          var sum := AddU64(sums[k], o.deltas[k].delta);
          if sum.None? {
            sums := sums[k := U64_MAX];
            saturations := saturations + 1;
          } else {
            sums := sums[k := sum.value];
          }
        }
      }
      assert sums == AddSums(b.sums, o.deltas);
      b := b.(sums := sums, saturations := saturations);
      if o.anyUnknown {
        b := b.(unknown := b.unknown + 1);
      }
      if !o.establishesCurrent {
        b := b.(nonCurrent := b.nonCurrent + 1);
      }
      if o.steadyNs > b.lastReceivedNs {
        b := b.(lastReceivedNs := o.steadyNs);
      }
      buckets[cell] := b;
    }

    method Aggregate(now: i64, freshness: FreshnessPolicy) returns (a: Aggregation)
      requires Valid()
      ensures a == Aggregated(View().buckets, spec.minCovered, now, freshness)
    {
      hide Elements, AddBucket;
      var t := NO_TOTALS;
      ghost var all := View().buckets;
      for offset := 0 to size
        invariant t == Totalled(all[..offset])
      {
        ElementAt(buckets[..], head, size, offset);
        var bucket := buckets[Slot(head, offset, buckets.Length)];
        assert all[..offset + 1][..offset] == all[..offset];
        if bucket.count != 0 {
          t := AddBucket(t, bucket);
        } else {
          t := t;
        }
      }
      assert all[..size] == all;
      return Assessed(t, spec.minCovered, now, freshness);
    }

    /** Highest and lowest occupancy over the buckets that have any, and where each was
        first reached. */
    method BurstEvidence(minExcursion: u64, minCovered: u32) returns (e: Burst)
      requires Valid()
      ensures (var cs := Covered(View().buckets);
        && e.covered == |cs| && e.coverageSufficient == (|cs| >= minCovered)
        && (cs == [] ==> e.excursion == 0)
        && (cs != [] ==> IsPeak(cs, e.peak, e.peakAt) && IsTrough(cs, e.trough, e.troughAt)
                         && e.excursion == e.peak - e.trough)
        && e.detected == (|cs| >= minCovered && e.excursion >= minExcursion))
    {
      hide Elements;
      var covered := 0;
      var peak, trough, peakAt, troughAt := 0, 0, 0, 0;
      ghost var all := View().buckets;
      for offset := 0 to size
        invariant covered == |Covered(all[..offset])|
        invariant covered > 0 ==> IsPeak(Covered(all[..offset]), peak, peakAt) && IsTrough(Covered(all[..offset]), trough, troughAt)
      {
        ElementAt(buckets[..], head, size, offset);
        var bucket := buckets[Slot(head, offset, buckets.Length)];
        assert all[..offset + 1][..offset] == all[..offset];
        if bucket.count != 0 && bucket.occupancy.Some? {
          ghost var before := Covered(all[..offset]);
          assert Covered(all[..offset + 1]) == before + [bucket];
          var o := bucket.occupancy.value;
          if covered == 0 || o.max > peak {
            PeakMoves(before, bucket);
            peak, peakAt := o.max, bucket.start;
          } else {
            PeakStays(before, bucket, peak, peakAt);
          }
          if covered == 0 || o.min < trough {
            TroughMoves(before, bucket);
            trough, troughAt := o.min, bucket.start;
          } else {
            TroughStays(before, bucket, trough, troughAt);
          }
          covered := covered + 1;
        }
      }
      assert all[..size] == all;
      if covered > 0 {
        PeakAboveTrough(Covered(all), peak, peakAt, trough, troughAt);
      }
      var excursion: u64 := if covered > 0 then peak - trough else 0;
      return Burst(covered, covered >= minCovered, peak, trough, excursion, peakAt, troughAt,
                   covered >= minCovered && excursion >= minExcursion);
    }
  }

  // ---- steps of the loops --------------------------------------------------------------------

  lemma DropStep(w: Accumulator, cutoff: int)
    ensures DropOld(w, cutoff) ==
            if w.buckets == [] || w.buckets[0].start >= cutoff then w
            else DropOld(w.(buckets := w.buckets[1..], evicted := w.evicted + 1,
                            evictedCount := w.evictedCount + w.buckets[0].count), cutoff)
  {}

  lemma FindStep(bs: seq<Bucket>, start: int)
    ensures Find(bs, start) ==
            if bs == [] then None
            else if bs[|bs| - 1].start == start then Some(|bs| - 1)
            else Find(bs[..|bs| - 1], start)
  {}

  lemma ElementAt<T>(cells: seq<T>, head: nat, size: nat, i: nat)
    requires head < |cells| && i < size <= |cells|
    ensures Elements(cells, head, size)[i] == cells[Slot(head, i, |cells|)]
  {}

  // ---- aggregates --------------------------------------------------------------------------------

  datatype Totals = Totals(
    covered: nat, count: nat, sums: Sums, unknown: nat, nonCurrent: nat, saturations: nat,
    occupancy: Option<Occupancy>, newest: Option<int>)

  const NO_TOTALS := Totals(0, 0, [0, 0, 0, 0, 0, 0], 0, 0, 0, None, None)

  function Merge(a: Option<Occupancy>, b: Option<Occupancy>): Option<Occupancy> {
    if b.None? then a
    else if a.None? then b
    else Some(Span(if b.value.max > a.value.max then b.value.max else a.value.max,
                        if b.value.min < a.value.min then b.value.min else a.value.min, b.value.last))
  }

  /** Across buckets the sums wrap around instead of saturating. */
  function AddBucket(t: Totals, b: Bucket): Totals {
    Totals(t.covered + 1, t.count + b.count,
           seq(SUM_COUNT, k requires 0 <= k < SUM_COUNT => (t.sums[k] + b.sums[k]) % U64_LIMIT),
           t.unknown + b.unknown, t.nonCurrent + b.nonCurrent, t.saturations + b.saturations,
           Merge(t.occupancy, b.occupancy),
           if b.lastReceivedNs > 0 && (t.newest.None? || b.lastReceivedNs > t.newest.value) then Some(b.lastReceivedNs)
           else t.newest)
  }

  function Totalled(bs: seq<Bucket>): Totals
    decreases |bs|
  {
    if bs == [] then NO_TOTALS
    else
      var before, b := Totalled(bs[..|bs| - 1]), bs[|bs| - 1];
      if b.count == 0 then before else AddBucket(before, b)
  }

  datatype Aggregation = Aggregation(totals: Totals, excursion: u64, coverageSufficient: bool, assessment: Assessment)

  function Assessed(t: Totals, minCovered: u32, now: i64, freshness: FreshnessPolicy): Aggregation {
    var age := if t.newest.Some? then now - t.newest.value else 0;
    var excursion: int := if t.occupancy.Some? then t.occupancy.value.max - t.occupancy.value.min else 0;
    var unobserved := Assessment(FreshnessUnknown, QualityUnknown, Correlated, AUTHORITY_UNKNOWN, {}, 0);
    var base := unobserved.(ageNs := if age < 0 then 0 else age, freshness := AssessFreshness(age, freshness));
    Aggregation(t, if excursion >= 0 then excursion else 0, t.covered >= minCovered,
      if t.covered == 0 then unobserved
      else if t.covered < minCovered then base.(quality := Incomplete, flags := {CoverageInsufficient})
      else if t.unknown > 0 then base.(quality := Incomplete, flags := {CounterDiscontinuity})
      else if t.nonCurrent > 0 then base.(quality := Incomplete, flags := {RecoveredFlag})
      else base.(quality := Complete))
  }

  function Aggregated(bs: seq<Bucket>, minCovered: u32, now: i64, freshness: FreshnessPolicy): Aggregation {
    Assessed(Totalled(bs), minCovered, now, freshness)
  }

  function SumOf(bs: seq<Bucket>, k: nat): nat
    requires k < SUM_COUNT
    decreases |bs|
  {
    if bs == [] then 0 else SumOf(bs[..|bs| - 1], k) + bs[|bs| - 1].sums[k]
  }

  predicate Occupied(bs: seq<Bucket>) {
    forall b :: b in bs ==> b.count > 0
  }

  /** What the totals are: every bucket covered, counts added up, and each sum exact up to
      wrapping around 64 bits. */
  lemma {:induction false} TotalsAre(bs: seq<Bucket>)
    requires Occupied(bs)
    ensures (var t := Totalled(bs);
      && t.covered == |bs| && t.count == Retained(bs)
      && (forall k :: 0 <= k < SUM_COUNT ==> t.sums[k] == SumOf(bs, k) % U64_LIMIT)
      && (t.unknown == 0 <==> forall b :: b in bs ==> b.unknown == 0)
      && (t.nonCurrent == 0 <==> forall b :: b in bs ==> b.nonCurrent == 0))
    decreases |bs|
  {
    if bs != [] {
      var before, last := bs[..|bs| - 1], bs[|bs| - 1];
      assert bs == before + [last];
      assert forall b :: b in before ==> b in bs;
      TotalsAre(before);
      RetainedConcat(before, [last]);
      forall k | 0 <= k < SUM_COUNT
        ensures Totalled(bs).sums[k] == SumOf(bs, k) % U64_LIMIT
      {
        WrapOfSum(SumOf(before, k), last.sums[k]);
      }
    }
  }

  lemma WrapOfSum(x: nat, y: nat)
    ensures (x % U64_LIMIT + y) % U64_LIMIT == (x + y) % U64_LIMIT
  {
    Cancel(x % U64_LIMIT + y, x / U64_LIMIT, U64_LIMIT);
  }

  /** An aggregate is complete exactly when enough buckets are covered and every
      observation in them has known deltas and may speak for the present. */
  lemma CompleteIff(spec: WindowSpec, os: seq<Observation>, now: i64, freshness: FreshnessPolicy)
    requires spec.Valid() && Ordered(os) && Representable(spec, os) && os != []
    ensures (var bs := ObservedAll(spec, os).buckets;
      Aggregated(bs, spec.minCovered, now, freshness).assessment.quality == Complete <==>
        && |bs| >= spec.minCovered
        && forall b, o :: b in bs && o in Members(spec, os, b.start) ==> o.establishesCurrent && !o.anyUnknown)
  {
    hide ObservedAll, Current, Starts, Members, Summarises;
    var bs := ObservedAll(spec, os).buckets;
    HoldsExactlyCurrent(spec, os);
    CurrentIsSuffix(spec, Starts(spec, os), os[|os| - 1].steadyNs);
    forall b | b in bs
      ensures b.count > 0 && (b.unknown == 0 <==> forall o :: o in Members(spec, os, b.start) ==> !o.anyUnknown)
      ensures b.nonCurrent == 0 <==> forall o :: o in Members(spec, os, b.start) ==> o.establishesCurrent
    {
      StartIsAmong(bs, Starts(spec, os), FirstCurrent(spec, Starts(spec, os), os[|os| - 1].steadyNs), b);
      BucketTallies(spec, os, b);
    }
    TotalsAre(bs);
  }

  lemma StartIsAmong(bs: seq<Bucket>, s: seq<int>, from: nat, b: Bucket)
    requires from <= |s| && StartsIn(bs) == s[from..] && b in bs
    ensures b.start in s
  {
    var i :| 0 <= i < |bs| && bs[i] == b;
    assert StartsIn(bs)[i] == s[from + i];
  }

  lemma BucketTallies(spec: WindowSpec, os: seq<Observation>, b: Bucket)
    requires b.start in Starts(spec, os) && Summarises(b, Members(spec, os, b.start))
    ensures b.count > 0 && (b.unknown == 0 <==> forall o :: o in Members(spec, os, b.start) ==> !o.anyUnknown)
    ensures b.nonCurrent == 0 <==> forall o :: o in Members(spec, os, b.start) ==> o.establishesCurrent
  {
    hide Starts, Members, SummarisesOccupancy, SummarisesSums, SummarisesTime;
    var ms := Members(spec, os, b.start);
    StartsOccur(spec, os);
    var o :| o in os && StartOf(spec, o) == b.start;
    MemberOf(spec, os, o);
    WhereEmpty(ms, (o: Observation) => o.anyUnknown);
    WhereEmpty(ms, (o: Observation) => !o.establishesCurrent);
  }

  lemma {:induction false} MemberOf(spec: WindowSpec, os: seq<Observation>, o: Observation)
    requires o in os
    ensures o in Members(spec, os, StartOf(spec, o))
    decreases |os|
  {
    hide StartOf;
    if o != os[|os| - 1] {
      assert os == os[..|os| - 1] + [os[|os| - 1]];
      MemberOf(spec, os[..|os| - 1], o);
    }
  }

  lemma {:induction false} WhereEmpty(ms: seq<Observation>, p: Observation -> bool)
    ensures |Where(ms, p)| == 0 <==> forall o :: o in ms ==> !p(o)
    decreases |ms|
  {
    if ms != [] {
      WhereEmpty(ms[..|ms| - 1], p);
      assert ms == ms[..|ms| - 1] + [ms[|ms| - 1]];
    }
  }

  // ---- bursts ---------------------------------------------------------------------------------------

  datatype Burst = Burst(covered: nat, coverageSufficient: bool, peak: u64, trough: u64, excursion: u64,
                         peakAt: int, troughAt: int, detected: bool)

  /** The buckets that bursts are looked for in. */
  function Covered(bs: seq<Bucket>): (cs: seq<Bucket>)
    ensures forall c :: c in cs ==> c.occupancy.Some?
    decreases |bs|
  {
    if bs == [] then []
    else
      var before, b := Covered(bs[..|bs| - 1]), bs[|bs| - 1];
      if b.count != 0 && b.occupancy.Some? then before + [b] else before
  }

  ghost predicate IsPeak(cs: seq<Bucket>, peak: u64, at: int) {
    && (forall c :: c in cs ==> c.occupancy.Some? && c.occupancy.value.max <= peak)
    && exists i :: 0 <= i < |cs| && cs[i].occupancy.value.max == peak && cs[i].start == at
                   && forall j :: 0 <= j < i ==> cs[j].occupancy.value.max < peak
  }

  ghost predicate IsTrough(cs: seq<Bucket>, trough: u64, at: int) {
    && (forall c :: c in cs ==> c.occupancy.Some? && c.occupancy.value.min >= trough)
    && exists i :: 0 <= i < |cs| && cs[i].occupancy.value.min == trough && cs[i].start == at
                   && forall j :: 0 <= j < i ==> cs[j].occupancy.value.min > trough
  }

  lemma PeakAboveTrough(cs: seq<Bucket>, peak: u64, peakAt: int, trough: u64, troughAt: int)
    requires cs != [] && IsPeak(cs, peak, peakAt) && IsTrough(cs, trough, troughAt)
    ensures trough <= peak
  {
    assert cs[0] in cs;
  }

  lemma PeakMoves(cs: seq<Bucket>, b: Bucket)
    requires b.occupancy.Some? && forall c :: c in cs ==> c.occupancy.Some? && c.occupancy.value.max < b.occupancy.value.max
    ensures IsPeak(cs + [b], b.occupancy.value.max, b.start)
  {
    assert (cs + [b])[|cs|] == b;
  }

  lemma PeakStays(cs: seq<Bucket>, b: Bucket, peak: u64, at: int)
    requires IsPeak(cs, peak, at) && b.occupancy.Some? && b.occupancy.value.max <= peak
    ensures IsPeak(cs + [b], peak, at)
  {
    var i :| 0 <= i < |cs| && cs[i].occupancy.value.max == peak && cs[i].start == at
             && forall j :: 0 <= j < i ==> cs[j].occupancy.value.max < peak;
    assert (cs + [b])[i] == cs[i];
  }

  lemma TroughMoves(cs: seq<Bucket>, b: Bucket)
    requires b.occupancy.Some? && forall c :: c in cs ==> c.occupancy.Some? && c.occupancy.value.min > b.occupancy.value.min
    ensures IsTrough(cs + [b], b.occupancy.value.min, b.start)
  {
    assert (cs + [b])[|cs|] == b;
  }

  lemma TroughStays(cs: seq<Bucket>, b: Bucket, trough: u64, at: int)
    requires IsTrough(cs, trough, at) && b.occupancy.Some? && b.occupancy.value.min >= trough
    ensures IsTrough(cs + [b], trough, at)
  {
    var i :| 0 <= i < |cs| && cs[i].occupancy.value.min == trough && cs[i].start == at
             && forall j :: 0 <= j < i ==> cs[j].occupancy.value.min > trough;
    assert (cs + [b])[i] == cs[i];
  }
}
