/** What a window contains after observations in any order of receive time: each bucket
    summarises the observations it has been given since it was last made. */
module WindowContents {
  import opened Wrappers
  import opened Bytes
  import opened Evidence
  import opened Classification
  import opened Window
  import opened WindowRefinement
  import opened Buckets

  predicate Holds(bs: seq<Bucket>, start: int) {
    exists b :: b in bs && b.start == start
  }

  /** The window in front of its last observation: expired, but not yet added to. */
  function Before(spec: WindowSpec, os: seq<Observation>): Accumulator
    requires spec.Valid() && os != []
  {
    var w := ObservedAll(spec, os[..|os| - 1]);
    AfterExpiry(w.(observations := w.observations + 1), os[|os| - 1].steadyNs)
  }

  /** The observations that the bucket of a start has been given since it was made; none when
      there is no such bucket. */
  function Live(spec: WindowSpec, os: seq<Observation>, start: int): seq<Observation>
    requires spec.Valid()
    decreases |os|
  {
    if os == [] || !Holds(ObservedAll(spec, os).buckets, start) then []
    else
      var last := os[|os| - 1];
      (if Holds(Before(spec, os).buckets, start) then Live(spec, os[..|os| - 1], start) else [])
      + (if StartOf(spec, last) == start then [last] else [])
  }

  lemma LiveStep(spec: WindowSpec, os: seq<Observation>, start: int)
    requires spec.Valid() && os != [] && Holds(ObservedAll(spec, os).buckets, start)
    ensures (var last := os[|os| - 1];
      Live(spec, os, start)
      == (if Holds(Before(spec, os).buckets, start) then Live(spec, os[..|os| - 1], start) else [])
         + (if StartOf(spec, last) == start then [last] else []))
  {}

  lemma {:induction false} LiveOccurred(spec: WindowSpec, os: seq<Observation>, start: int, o: Observation)
    requires spec.Valid() && o in Live(spec, os, start)
    ensures o in os && StartOf(spec, o) == start
    decreases |os|
  {
    hide ObservedAll, StartOf;
    assert os == os[..|os| - 1] + [os[|os| - 1]];
    if o in Live(spec, os[..|os| - 1], start) {
      LiveOccurred(spec, os[..|os| - 1], start, o);
    }
  }

  /** Placing an observation leaves every other bucket as it was. */
  lemma PlacedParts(w: Accumulator, o: Observation, b: Bucket)
    requires Wellformed(w) && Distinct(w.buckets) && b in Placed(w, o).buckets
    ensures b.start != StartOf(w.spec, o) ==> b in w.buckets
    ensures b.start == StartOf(w.spec, o) ==>
              exists a :: (a in w.buckets || (a == Blank(b.start) && !Holds(w.buckets, b.start))) && a.start == b.start && b == Added(a, o)
  {
    hide Added, Blank;
    var start := StartOf(w.spec, o);
    var (u, index) := Located(w, start);
    LocatedParts(w, start);
    if index.Some? {
      var i :| 0 <= i < |u.buckets| && Placed(w, o).buckets[i] == b;
      if i == index.value {
        assert b == Added(u.buckets[i], o);
      } else {
        assert b == u.buckets[i] && b.start != start;
      }
    }
  }

  lemma LocatedParts(w: Accumulator, start: int)
    requires Wellformed(w) && Distinct(w.buckets)
    ensures (var (u, index) := Located(w, start);
      && Distinct(u.buckets)
      && (forall b :: b in u.buckets ==> b in w.buckets || (b == Blank(start) && !Holds(w.buckets, start)))
      && (index.None? ==> !Holds(u.buckets, start)))
  {
    BlankStart(start);
  }

  lemma BlankStart(start: int)
    ensures Blank(start).start == start
  {}

  /** In whatever order observations arrive, every bucket of the window summarises exactly what
      it has been given, and that is something. */
  lemma {:induction false} BucketsSummariseLive(spec: WindowSpec, os: seq<Observation>, b: Bucket)
    requires spec.Valid() && b in ObservedAll(spec, os).buckets
    ensures Summarises(b, Live(spec, os, b.start)) && Live(spec, os, b.start) != []
    decreases |os|
  {
    hide Summarises, Added, Blank, Placed, StartOf, Live, Sound, AfterExpiry;
    var front, last := os[..|os| - 1], os[|os| - 1];
    var w, v := ObservedAll(spec, front), Before(spec, os);
    AlwaysSound(spec, front);
    StepParts(spec, os);
    LiveStep(spec, os, b.start);
    PlacedParts(v, last, b);
    if b.start != StartOf(spec, last) {
      assert b in w.buckets && Holds(v.buckets, b.start);
      BucketsSummariseLive(spec, front, b);
      assert Live(spec, front, b.start) + [] == Live(spec, front, b.start);
    } else {
      var a :| (a in v.buckets || (a == Blank(b.start) && !Holds(v.buckets, b.start))) && a.start == b.start && b == Added(a, last);
      if a in v.buckets {
        assert Holds(v.buckets, b.start) && a in w.buckets;
        BucketsSummariseLive(spec, front, a);
        AddedSummarises(a, Live(spec, front, b.start), last);
      } else {
        BlankSummarises(b.start);
        AddedSummarises(a, [], last);
      }
    }
  }

  /** One observation is an expiry and then a placing. */
  lemma StepParts(spec: WindowSpec, os: seq<Observation>)
    requires spec.Valid() && os != [] && Sound(ObservedAll(spec, os[..|os| - 1]))
    ensures (var w, v := ObservedAll(spec, os[..|os| - 1]), Before(spec, os);
      && ObservedAll(spec, os) == Placed(v, os[|os| - 1])
      && v.spec == spec && Wellformed(v) && Distinct(v.buckets)
      && forall b :: b in v.buckets ==> b in w.buckets)
  {
    hide Placed, AfterExpiry, WindowSpec.Valid, WindowSpec.BucketCount, Counted, Aligned;
    var w, last := ObservedAll(spec, os[..|os| - 1]), os[|os| - 1];
    assert ObservedAll(spec, os) == Observed(w, last);
    ExpiryKeepsShape(w.(observations := w.observations + 1), last.steadyNs);
    hide ObservedAll;
  }

  lemma ExpiryKeepsShape(w: Accumulator, now: i64)
    requires Wellformed(w) && Distinct(w.buckets)
    ensures (var v := AfterExpiry(w, now);
      v.spec == w.spec && Wellformed(v) && Distinct(v.buckets) && forall b :: b in v.buckets ==> b in w.buckets)
  {
    hide DropOld, WindowSpec.Valid, WindowSpec.BucketCount;
    DropOldKeeps(w, SubtractClamped(now, w.spec.durationNs));
  }

  lemma ExpiryOnlyDrops(w: Accumulator, now: i64)
    ensures AfterExpiry(w, now).spec == w.spec && forall b :: b in AfterExpiry(w, now).buckets ==> b in w.buckets
  {
    DropOldKeeps(w, SubtractClamped(now, w.spec.durationNs));
  }

  /** What is aggregated at a time: the buckets of all observations, expired. */
  function Shown(spec: WindowSpec, os: seq<Observation>, now: i64): seq<Bucket>
    requires spec.Valid()
  {
    AfterExpiry(ObservedAll(spec, os), now).buckets
  }

  predicate Fit(o: Observation) {
    o.establishesCurrent && !o.anyUnknown
  }

  /** An aggregate is complete exactly when enough buckets are left after expiry and every
      observation they have been given has known deltas and may speak for the present, in
      whatever order the observations came. */
  lemma ShownCompleteIff(spec: WindowSpec, os: seq<Observation>, now: i64, freshness: FreshnessPolicy)
    requires spec.Valid()
    ensures (var bs := Shown(spec, os, now);
      Aggregated(bs, spec.minCovered, now, freshness).assessment.quality == Complete <==>
        && |bs| >= spec.minCovered
        && forall b, o :: b in bs && o in Live(spec, os, b.start) ==> Fit(o))
  {
    hide ObservedAll, AfterExpiry, Live, Summarises, Totalled;
    var bs := Shown(spec, os, now);
    ExpiryOnlyDrops(ObservedAll(spec, os), now);
    forall b | b in bs
      ensures b.count > 0 && (b.unknown == 0 && b.nonCurrent == 0 <==> forall o :: o in Live(spec, os, b.start) ==> Fit(o))
    {
      BucketsSummariseLive(spec, os, b);
      LiveTallies(b, Live(spec, os, b.start));
    }
    TotalsAre(bs);
    assert (forall b :: b in bs ==> b.unknown == 0 && b.nonCurrent == 0)
      <==> forall b, o :: b in bs && o in Live(spec, os, b.start) ==> Fit(o);
  }

  lemma LiveTallies(b: Bucket, ms: seq<Observation>)
    requires Summarises(b, ms) && ms != []
    ensures b.count > 0 && (b.unknown == 0 && b.nonCurrent == 0 <==> forall o :: o in ms ==> Fit(o))
  {
    hide SummarisesOccupancy, SummarisesSums, SummarisesTime;
    WhereEmpty(ms, (o: Observation) => o.anyUnknown);
    WhereEmpty(ms, (o: Observation) => !o.establishesCurrent);
  }

  // ---- in order of receive time -------------------------------------------------------------

  lemma {:induction false} LiveIsSuffix(spec: WindowSpec, os: seq<Observation>, start: int)
    requires spec.Valid()
    ensures (var all, live := Members(spec, os, start), Live(spec, os, start);
      |live| <= |all| && live == all[|all| - |live|..])
    decreases |os|
  {
    hide ObservedAll, AfterExpiry, StartOf;
    if os != [] {
      LiveIsSuffix(spec, os[..|os| - 1], start);
    }
  }

  /** When observations come in order of receive time, what the bucket of a start has been given
      are all observations of that start. */
  lemma LiveIsMembers(spec: WindowSpec, os: seq<Observation>, start: int)
    requires spec.Valid() && Ordered(os) && Representable(spec, os) && Holds(ObservedAll(spec, os).buckets, start)
    ensures Live(spec, os, start) == Members(spec, os, start)
  {
    hide ObservedAll, Live, Members, Current, Starts, SummarisesOccupancy, SummarisesSums, SummarisesTime;
    if os == [] {
      NothingHeld(spec, start);
    } else {
      var b :| b in ObservedAll(spec, os).buckets && b.start == start;
      HoldsExactlyCurrent(spec, os);
      BucketsSummariseLive(spec, os, b);
      LiveIsSuffix(spec, os, start);
    }
  }

  lemma NothingHeld(spec: WindowSpec, start: int)
    requires spec.Valid()
    ensures !Holds(ObservedAll(spec, []).buckets, start)
  {}
}
