/** Windows over retained history: evidence that may not speak for the present keeps
    every window that contains it from being complete. */
module StoreWindows {
  import opened Wrappers
  import opened Bytes
  import opened Evidence
  import opened Policy
  import opened Classification
  import opened History
  import opened Window
  import opened WindowRefinement
  import opened Buckets
  import opened WindowContents
  import opened Identity
  import opened StoreSpec
  import opened StoreTheorems
  import opened StoreRuns

  /** What a window is told of a record. */
  function ToObservation(x: HistoryRecord): Observation {
    var deltas: Deltas := [x.DeltaOf(DROP_PACKETS), x.DeltaOf(MARK_PACKETS), x.DeltaOf(PAUSE_FRAMES),
                           x.DeltaOf(PAUSE_DURATION_NANOS), x.DeltaOf(ENQUEUE_PACKETS), x.DeltaOf(DEQUEUE_PACKETS)];
    Observation(x.receivedNs,
                if x.ValueOf(OCCUPANCY_CELLS).Some? then x.ValueOf(OCCUPANCY_CELLS) else x.ValueOf(OCCUPANCY_BYTES),
                deltas, x.EstablishesCurrent(), exists k :: 0 <= k < SUM_COUNT && !deltas[k].known)
  }

  function ToObservations(xs: seq<HistoryRecord>): (os: seq<Observation>)
    ensures |os| == |xs| && forall i :: 0 <= i < |xs| ==> os[i] == ToObservation(xs[i])
  {
    seq(|xs|, i requires 0 <= i < |xs| => ToObservation(xs[i]))
  }

  /** What the store aggregates for a window at a time: all records of a ring, expired. */
  function Shown(spec: WindowSpec, xs: seq<HistoryRecord>, now: i64): seq<Bucket>
    requires spec.Valid()
  {
    WindowContents.Shown(spec, ToObservations(xs), now)
  }

  /** The record is among what some bucket shown has been given since it was made. */
  predicate Contains(spec: WindowSpec, xs: seq<HistoryRecord>, now: i64, x: HistoryRecord)
    requires spec.Valid()
  {
    exists b :: b in Shown(spec, xs, now) && ToObservation(x) in Live(spec, ToObservations(xs), b.start)
  }

  /** A window that contains a record read back from persistence, or from a source of low
      authority, or with a delta that is not known, is never complete, in whatever order the
      records were received. */
  lemma UnfitRecordKeepsIncomplete(spec: WindowSpec, xs: seq<HistoryRecord>, x: HistoryRecord, now: i64, freshness: FreshnessPolicy)
    requires spec.Valid() && Contains(spec, xs, now, x)
    requires RecoveredFlag in x.flags || x.authority < PRIMARY || ToObservation(x).anyUnknown
    ensures Aggregated(Shown(spec, xs, now), spec.minCovered, now, freshness).assessment.quality != Complete
  {
    hide Aggregated, ToObservation, Live, WindowContents.Shown;
    if RecoveredFlag in x.flags || x.authority < PRIMARY {
      Unfit(x);
    }
    var b :| b in Shown(spec, xs, now) && ToObservation(x) in Live(spec, ToObservations(xs), b.start);
    assert !Fit(ToObservation(x));
    ShownCompleteIff(spec, ToObservations(xs), now, freshness);
  }

  /** Among records in order of receive time, the window contains each whose bucket is shown. */
  lemma ContainedInOrder(spec: WindowSpec, xs: seq<HistoryRecord>, x: HistoryRecord, now: i64)
    requires spec.Valid() && x in xs && Ascending(xs) && Representable(spec, ToObservations(xs))
    ensures Contains(spec, xs, now, x) <==> Holds(Shown(spec, xs, now), StartOf(spec, ToObservation(x)))
  {
    hide ObservedAll, Members, ToObservation, StartOf, Live, AfterExpiry;
    var os, o := ToObservations(xs), ToObservation(x);
    var i :| 0 <= i < |xs| && xs[i] == x;
    assert os[i] == o && o in os;
    InReceiveOrder(xs);
    MemberOf(spec, os, o);
    ExpiryOnlyDrops(ObservedAll(spec, os), now);
    if b :| b in Shown(spec, xs, now) && o in Live(spec, os, b.start) {
      LiveOccurred(spec, os, b.start, o);
    }
    if b :| b in Shown(spec, xs, now) && b.start == StartOf(spec, o) {
      LiveIsMembers(spec, os, b.start);
    }
  }

  /** A record that the run has pushed for the queue out of evidence read back from persistence. */
  predicate CameFromRecovery(c: Config, ps: seq<Presented>, q: QueuePath, x: HistoryRecord) {
    var pushed, origins := RecordsFor(c, Opened(c), ps, q), OriginsFor(c, Opened(c), ps, q);
    exists i :: 0 <= i < |pushed| && i < |origins| && pushed[i] == x && origins[i]
  }

  /** Over any mix of ingest and recovery: no window over a queue's history that contains a record
      read back from persistence is complete. */
  lemma RecoveredNeverComplete(c: Config, ps: seq<Presented>, q: QueuePath, x: HistoryRecord, spec: WindowSpec, now: i64, freshness: FreshnessPolicy)
    requires c.Valid() && spec.Valid() && CameFromRecovery(c, ps, q, x)
    requires Contains(spec, RingOf(c, IngestedAll(c, Opened(c), ps), q).items, now, x)
    ensures Aggregated(Shown(spec, RingOf(c, IngestedAll(c, Opened(c), ps), q).items, now), spec.minCovered, now, freshness)
              .assessment.quality != Complete
  {
    hide StoreInv, IngestedAll, RecordsFor, OriginsFor, RingOf, Opened, Shown, Contains, Aggregated;
    OpenedKeeps(c);
    OriginsAreMarks(c, Opened(c), ps, q);
    UnfitRecordKeepsIncomplete(spec, RingOf(c, IngestedAll(c, Opened(c), ps), q).items, x, now, freshness);
  }

  lemma InReceiveOrder(xs: seq<HistoryRecord>)
    requires Ascending(xs)
    ensures Ordered(ToObservations(xs))
  {
    forall i, j | 0 <= i < j < |xs|
      ensures ToObservations(xs)[i].steadyNs <= ToObservations(xs)[j].steadyNs
    {
      assert xs[i].receivedNs <= xs[j].receivedNs;
    }
  }

  lemma Unfit(x: HistoryRecord)
    requires RecoveredFlag in x.flags || x.authority < PRIMARY
    ensures !ToObservation(x).establishesCurrent
  {}
}
