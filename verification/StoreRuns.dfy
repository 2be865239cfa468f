/** At-most-once admission, what each ring ends up with, and what recovered evidence
    can and cannot do. */
module StoreRuns {
  import opened Wrappers
  import opened Bytes
  import opened Identity
  import opened Evidence
  import opened Policy
  import opened Classification
  import opened History
  import opened Admission
  import opened StoreSpec
  import opened StoreTheorems
  import Counter

  // ---- at most once ---------------------------------------------------------------------------

  /** Where an admitted sample stands in its source's order. */
  datatype Place = Place(source: Name, ordinal: nat, sequence: u64)

  function PlaceIn(st: Store, s: Sample): Place
    requires s.source in st.sources
  {
    Place(s.source, st.sources[s.source].ordinal, st.sources[s.source].lastSequence)
  }

  predicate Earlier(a: Place, b: Place) {
    a.ordinal < b.ordinal || (a.ordinal == b.ordinal && a.sequence < b.sequence)
  }

  /** No source's record goes back, and the record of an admitted sample's source advances
      to the place of that sample. */
  ghost predicate Advances(before: Store, after: Store) {
    forall id :: id in before.sources ==>
      && id in after.sources
      && (Before(before.sources[id], after.sources[id]) || SamePlace(before.sources[id], after.sources[id]))
      && before.sources[id].generation <= after.sources[id].generation
      && before.sources[id].authority <= after.sources[id].authority
  }

  lemma SettledRegistry(c: Config, st: Store, outcome: Outcome, p: Presented, s: Sample)
    requires outcome.Admitted() ==> s.source in st.sources
    ensures (var (t, o) := Settled(c, st, outcome, p, s);
      && (o == outcome || (outcome.Admitted() && o == RejectedLimit)) && t.nextOrdinal == st.nextOrdinal
      && t.sources == if o.Admitted() then
                        st.sources[s.source := st.sources[s.source].(accepted := st.sources[s.source].accepted + 1)]
                      else st.sources)
  {
    hide QueueStep, ConflictsAfter, RecordedAll, EventsOf, CountKind, Recorded, NoRoom;
  }

  /** The registry after a presentation is the registry after the source step; what comes
      then only counts the acceptance. */
  lemma RegistryAfter(c: Config, st: Store, p: Presented)
    ensures (var s := Stamped(p);
      var (t, o) := Ingested(c, st, p);
      if Invalid(s) then t.sources == st.sources && o == RejectedInvalid
      else
        var (j, jo) := SourceStep(c, Presenting(st), s);
        && (o == jo || (jo.Admitted() && o == RejectedLimit)) && t.nextOrdinal == j.nextOrdinal
        && (o.Admitted() ==> s.source in j.sources)
        && t.sources == if o.Admitted() then
                          j.sources[s.source := j.sources[s.source].(accepted := j.sources[s.source].accepted + 1)]
                        else j.sources)
  {
    hide SourceStep, Settled, Invalid, Recorded;
    var s := Stamped(p);
    if !Invalid(s) {
      var (judged, outcome) := SourceStep(c, Presenting(st), s);
      SettledRegistry(c, judged, outcome, p, s);
    }
  }

  lemma IngestedAdvances(c: Config, st: Store, p: Presented)
    requires c.Valid() && StoreInv(c, st)
    ensures (var (t, o) := Ingested(c, st, p);
      var s := Stamped(p);
      && Advances(st, t)
      && (o.Admitted() ==>
            && s.source in t.sources && t.sources[s.source].lastSequence == s.sequence
            && t.sources[s.source].incarnation == s.incarnation
            && (s.source in st.sources ==> Before(st.sources[s.source], t.sources[s.source]))))
  {
    hide StoreInv, Ingested, SourceStep, Invalid, Remembers, Judge, Marked;
    var s := Stamped(p);
    SourcePart(c, st);
    SourceStepFacts(c, Presenting(st), s);
    RegistryAfter(c, st, p);
    if s.source in st.sources {
      JudgeAdvances(st.sources[s.source], s, st.nextOrdinal);
      JudgedPlace(st.sources[s.source], s, st.nextOrdinal);
    }
  }

  lemma SourcePart(c: Config, st: Store)
    requires StoreInv(c, st)
    ensures SourcesOk(st.sources, st.nextOrdinal, c.limits.maxSources) && LogOk(st.log, c.limits.maxEvents)
    ensures forall id :: id in st.sources ==> Remembers(st.sources[id], st.nextOrdinal)
  {
    hide Remembers;
  }

  lemma JudgedPlace(r: SourceRecord, s: Sample, nextOrdinal: nat)
    ensures Judge(r, s, nextOrdinal).outcome.Admitted() ==>
              (var after := Marked(Judge(r, s, nextOrdinal), s);
               after.lastSequence == s.sequence && after.incarnation == s.incarnation)
  {}

  /** The places of the samples that a run admits, in order. */
  function Admissions(c: Config, st: Store, ps: seq<Presented>): seq<Place>
    decreases |ps|
  {
    if ps == [] then []
    else
      var (t, o) := Ingested(c, st, ps[0]);
      var s := Stamped(ps[0]);
      (if o.Admitted() && s.source in t.sources then [PlaceIn(t, s)] else []) + Admissions(c, t, ps[1..])
  }

  /** Whatever is admitted later stands behind what is on record now. */
  lemma {:induction false} LaterStandsBehind(c: Config, st: Store, ps: seq<Presented>)
    requires c.Valid() && StoreInv(c, st)
    ensures forall a :: a in Admissions(c, st, ps) && a.source in st.sources ==>
              Earlier(Place(a.source, st.sources[a.source].ordinal, st.sources[a.source].lastSequence), a)
    decreases |ps|
  {
    hide StoreInv, Ingested;
    if ps != [] {
      var t := Ingested(c, st, ps[0]).0;
      IngestedKeeps(c, st, ps[0]);
      IngestedAdvances(c, st, ps[0]);
      LaterStandsBehind(c, t, ps[1..]);
    }
  }

  predicate InOrderBySource(xs: seq<Place>) {
    forall i, j :: 0 <= i < j < |xs| && xs[i].source == xs[j].source ==> Earlier(xs[i], xs[j])
  }

  /** No sample of one life of a source is admitted twice: admissions of a source strictly
      ascend by life and sequence number. */
  lemma {:induction false} AtMostOnce(c: Config, st: Store, ps: seq<Presented>)
    requires c.Valid() && StoreInv(c, st)
    ensures InOrderBySource(Admissions(c, st, ps))
    decreases |ps|
  {
    hide StoreInv, Ingested, Earlier;
    if ps != [] {
      var (t, o) := Ingested(c, st, ps[0]);
      IngestedKeeps(c, st, ps[0]);
      LaterStandsBehind(c, t, ps[1..]);
      AtMostOnce(c, t, ps[1..]);
      var s := Stamped(ps[0]);
      PrependOrdered(if o.Admitted() && s.source in t.sources then [PlaceIn(t, s)] else [], Admissions(c, t, ps[1..]));
    }
  }

  lemma PrependOrdered(first: seq<Place>, rest: seq<Place>)
    requires |first| <= 1 && forall a, b :: a in first && b in rest && a.source == b.source ==> Earlier(a, b)
    requires InOrderBySource(rest)
    ensures InOrderBySource(first + rest)
  {
    hide Earlier;
  }

  // ---- a number is used up even by a sample that is refused ----------------------------------------

  /** A sample that passed the fences and then found no room for its queue has used up its
      sequence number: presented again, it is a duplicate, even if there is room now. */
  lemma RefusedForRoomIsSpent(c: Config, st: Store, p: Presented, again: Presented)
    requires c.Valid() && StoreInv(c, st) && Ingested(c, st, p).1 == RejectedLimit
    requires Stamped(again).(receivedNs := 0, receivedWallNs := 0) == Stamped(p).(receivedNs := 0, receivedWallNs := 0)
    ensures (var s := Stamped(p);
      var t := Ingested(c, st, p).0;
      (s.source in st.sources || |st.sources| < c.limits.maxSources) <==>
        s.source in t.sources && Ingested(c, t, again).1 == FencedStaleSequence)
  {
    hide StoreInv, Ingested, SourceStep, Remembers, Judge, Invalid, Marked;
    var s := Stamped(p);
    SourcePart(c, st);
    SourceStepFacts(c, Presenting(st), s);
    RegistryAfter(c, st, p);
    IngestedKeeps(c, st, p);
    InvalidIgnoresTimes(s, Stamped(again));
    RegistersUnlessFull(c, Presenting(st), s);
    var t := Ingested(c, st, p).0;
    if s.source in t.sources {
      if s.source in st.sources {
        JudgeAdvances(st.sources[s.source], s, st.nextOrdinal);
        SpentNumber(st.sources[s.source], s, st.nextOrdinal, Stamped(again), t.nextOrdinal);
      } else {
        SpentByNewcomer(s, st.nextOrdinal, Stamped(again), t.nextOrdinal);
      }
      SourcePart(c, t);
      SourceStepFacts(c, Presenting(t), Stamped(again));
      RegistryAfter(c, t, again);
    }
  }

  lemma InvalidIgnoresTimes(s: Sample, again: Sample)
    requires again.(receivedNs := 0, receivedWallNs := 0) == s.(receivedNs := 0, receivedWallNs := 0)
    ensures Invalid(again) == Invalid(s) && again.source == s.source
  {}

  lemma RegistersUnlessFull(c: Config, st: Store, s: Sample)
    ensures s.source in SourceStep(c, st, s).0.sources <==> s.source in st.sources || |st.sources| < c.limits.maxSources
    ensures s.source in SourceStep(c, st, s).0.sources <==> SourceStep(c, st, s).1 != RejectedLimit
  {
    hide JudgeEvents, StaleToken, Reincarnated;
  }

  lemma SpentNumber(r: SourceRecord, s: Sample, n: nat, again: Sample, m: nat)
    requires Remembers(r, n) && Judge(r, s, n).outcome.Admitted()
    requires again.(receivedNs := 0, receivedWallNs := 0) == s.(receivedNs := 0, receivedWallNs := 0)
    ensures Judge(Marked(Judge(r, s, n), s), again, m).outcome == FencedStaleSequence
  {}

  lemma SpentByNewcomer(s: Sample, n: nat, again: Sample, m: nat)
    requires again.(receivedNs := 0, receivedWallNs := 0) == s.(receivedNs := 0, receivedWallNs := 0)
    ensures Judge(Advanced(Registered(s, n), s), again, m).outcome == FencedStaleSequence
  {}

  // ---- what each ring holds -------------------------------------------------------------------------

  /** The records that a run pushes for one queue, in order. */
  function RecordsFor(c: Config, st: Store, ps: seq<Presented>, q: QueuePath): seq<HistoryRecord>
    decreases |ps|
  {
    if ps == [] then []
    else
      var (t, o) := Ingested(c, st, ps[0]);
      RecordFor(c, st, ps[0], q) + RecordsFor(c, t, ps[1..], q)
  }

  /** What one presentation pushes for a queue. */
  function RecordFor(c: Config, st: Store, p: Presented, q: QueuePath): seq<HistoryRecord> {
    var (t, o) := Ingested(c, st, p);
    if o.Admitted() && q == Stamped(p).queue && q in t.queues && t.queues[q].history.items != [] then
      [t.queues[q].history.items[|t.queues[q].history.items| - 1]]
    else []
  }

  function RingOf(c: Config, st: Store, q: QueuePath): Ring {
    if q in st.queues then st.queues[q].history else Reserved(c.limits.maxSamples)
  }

  /** The queue a sample goes to, whether or not it is there yet. */
  function QueueOf(c: Config, st: Store, q: QueuePath): QueueState {
    if q in st.queues then st.queues[q] else NewQueue(c)
  }

  lemma SettledQueues(c: Config, st: Store, outcome: Outcome, p: Presented, s: Sample)
    requires outcome.Admitted() ==> s.source in st.sources
    ensures (var (t, o) := Settled(c, st, outcome, p, s);
      t.queues == if o.Admitted() then
                    st.queues[s.queue := QueueStep(c, QueueOf(c, st, s.queue), p, s, st.sources[s.source]).q]
                  else st.queues)
  {
    hide QueueStep, ConflictsAfter, RecordedAll, EventsOf, CountKind, Recorded, NoRoom;
    var o := QueueStep(c, QueueOf(c, st, s.queue), p, s, if s.source in st.sources then st.sources[s.source] else Registered(s, 0));
    assert st.queues[s.queue := NewQueue(c)][s.queue := o.q] == st.queues[s.queue := o.q];
  }

  /** The source's record as it stands when its sample reaches the queue. */
  function SourceFor(c: Config, st: Store, p: Presented): SourceRecord
    requires SourceStep(c, Presenting(st), Stamped(p)).1.Admitted()
  {
    SourceStep(c, Presenting(st), Stamped(p)).0.sources[Stamped(p).source]
  }

  /** What one presentation does to the queues. */
  lemma QueuesAfterOne(c: Config, st: Store, p: Presented)
    requires c.Valid() && StoreInv(c, st)
    ensures (var (t, o) := Ingested(c, st, p); var s := Stamped(p);
      && (!o.Admitted() ==> t.queues == st.queues)
      && (o.Admitted() ==>
            && SourceStep(c, Presenting(st), s).1.Admitted() && s.source in t.sources
            && t.sources[s.source].authority == SourceFor(c, st, p).authority
            && t.queues == st.queues[s.queue := QueueStep(c, QueueOf(c, st, s.queue), p, s, SourceFor(c, st, p)).q]))
  {
    hide SourceStep, Settled, Reject, Invalid, QueueStep, SourcesOk, WithinBudget, LogOk;
    var s := Stamped(p);
    SourceStepFacts(c, Presenting(st), s);
    RejectKeeps(c, Presenting(st), s.queue);
    if !Invalid(s) {
      var (judged, outcome) := SourceStep(c, Presenting(st), s);
      SettledQueues(c, judged, outcome, p, s);
      SettledRegistry(c, judged, outcome, p, s);
    }
  }

  lemma RingAfterOne(c: Config, st: Store, p: Presented, q: QueuePath)
    requires c.Valid() && StoreInv(c, st)
    ensures RingOf(c, Ingested(c, st, p).0, q) == PushedAll(RingOf(c, st, q), RecordFor(c, st, p, q))
    ensures |RecordFor(c, st, p, q)| == if Ingested(c, st, p).1.Admitted() && q == Stamped(p).queue then 1 else 0
  {
    hide Ingested, SourceFor, Pushed, PushedAll, QueueStep, StoreInv;
    QueuesAfterOne(c, st, p);
    PushedNone(RingOf(c, st, q));
    if Ingested(c, st, p).1.Admitted() && q == Stamped(p).queue {
      RecordOfOne(c, st, p);
      PushedLast(RingOf(c, st, q), RecordFor(c, st, p, q)[0]);
    }
  }

  /** The record that an admitted presentation pushes. */
  lemma RecordOfOne(c: Config, st: Store, p: Presented)
    requires c.Valid() && StoreInv(c, st) && Ingested(c, st, p).1.Admitted()
    ensures (var q := Stamped(p).queue;
      && SourceStep(c, Presenting(st), Stamped(p)).1.Admitted()
      && (var o := QueueStep(c, QueueOf(c, st, q), p, Stamped(p), SourceFor(c, st, p));
          RecordFor(c, st, p, q) == [o.record] && o.q.history == Pushed(RingOf(c, st, q), o.record)))
  {
    hide Ingested, SourceStep, QueueStep, Pushed;
    QueuesAfterOne(c, st, p);
    var s := Stamped(p);
    var o := QueueStep(c, QueueOf(c, st, s.queue), p, s, SourceFor(c, st, p));
    QueueStepFacts(c, QueueOf(c, st, s.queue), p, s, SourceFor(c, st, p));
    HasRoom(c, st, s.queue);
    PushedLast(RingOf(c, st, s.queue), o.record);
  }

  lemma HasRoom(c: Config, st: Store, q: QueuePath)
    requires c.Valid() && StoreInv(c, st)
    ensures RingOf(c, st, q).capacity > 0 && QueueOf(c, st, q).history == RingOf(c, st, q)
  {
    hide SourcesOk, WithinBudget, LogOk, Validate;
  }

  lemma PushedLast(r: Ring, x: HistoryRecord)
    ensures r.capacity > 0 ==> Pushed(r, x).items != [] && Pushed(r, x).items[|Pushed(r, x).items| - 1] == x
    ensures PushedAll(r, [x]) == Pushed(r, x) && PushedAll(r, []) == r
  {
    assert [x][..0] == [];
  }

  lemma {:induction false} PushedAllConcat(r: Ring, a: seq<HistoryRecord>, b: seq<HistoryRecord>)
    ensures PushedAll(r, a + b) == PushedAll(PushedAll(r, a), b)
    decreases |b|
  {
    if b == [] {
      assert a + b == a;
    } else {
      assert (a + b)[..|a + b| - 1] == a + b[..|b| - 1];
      PushedAllConcat(r, a, b[..|b| - 1]);
    }
  }

  /** Over every run each ring holds exactly the newest records admitted for its queue, in
      order, as many as it has room for. */
  lemma {:induction false} RingsHoldNewest(c: Config, st: Store, ps: seq<Presented>, q: QueuePath)
    requires c.Valid() && StoreInv(c, st)
    ensures RingOf(c, IngestedAll(c, st, ps), q) == PushedAll(RingOf(c, st, q), RecordsFor(c, st, ps, q))
    decreases |ps|
  {
    hide StoreInv, Ingested, RecordFor, RingOf, PushedAll;
    if ps != [] {
      var t := Ingested(c, st, ps[0]).0;
      IngestedKeeps(c, st, ps[0]);
      RingAfterOne(c, st, ps[0], q);
      RingsHoldNewest(c, t, ps[1..], q);
      PushedAllConcat(RingOf(c, st, q), RecordFor(c, st, ps[0], q), RecordsFor(c, t, ps[1..], q));
    } else {
      PushedNone(RingOf(c, st, q));
    }
  }

  lemma PushedNone(r: Ring)
    ensures PushedAll(r, []) == r
  {}

  /** From an empty store on, that is: the newest maxSamples records admitted. */
  lemma RingsFromOpening(c: Config, ps: seq<Presented>, q: QueuePath)
    requires c.Valid()
    ensures RingOf(c, IngestedAll(c, Opened(c), ps), q).items
         == Newest(RecordsFor(c, Opened(c), ps, q), c.limits.maxSamples)
  {
    hide StoreInv, IngestedAll, RecordsFor;
    OpenedHolds(c);
    RingsHoldNewest(c, Opened(c), ps, q);
    HoldsNewest(c.limits.maxSamples, RecordsFor(c, Opened(c), ps, q));
  }

  // ---- recovered evidence ---------------------------------------------------------------------------

  /** Evidence read back from persistence is marked, incomplete and not fresh, and cannot
      speak for the present. */
  lemma RecoveredIsMarked(c: Config, p: Presented, s: Sample, source: SourceRecord)
    requires p.recovered
    ensures (var a := Assess(c, p, s, source);
      && RecoveredFlag in a.flags && a.quality == Incomplete && a.freshness != Evidence.Fresh
      && a.provenance == RecoveredFromPersistence && !EstablishesCurrentPressure(a))
  {}

  /** Admitting it leaves its queue out of date or in conflict. */
  lemma RecoveredLeavesQueueOld(c: Config, q: QueueState, p: Presented, s: Sample, source: SourceRecord)
    requires p.recovered && s.reported != {}
    ensures (var o := QueueStep(c, q, p, s, source);
      && (o.q.latest == OutOfDate || o.q.latest == InConflict)
      && RecoveredFlag in o.record.flags && !o.record.EstablishesCurrent())
  {
    hide Assess, DeltasOf, WindowSum, ConflictAfter, ResolveBasis, CounterEvents, CountersAfter, PeersAfter, Pushed, Threshold;
    RecoveredIsMarked(c, p, s, source);
    var a := Assess(c, p, s, source);
    var i := InputOf(c, q, s, a, ConflictAfter(c, q, s, source.authority));
    assert i.assessment == a && i.reported == s.reported;
    assert !Matches(c.policy, i, EVIDENCE_PRESENCE) && !Matches(c.policy, i, EVIDENCE_UNSUPPORTED);
    assert Matches(c.policy, i, EVIDENCE_FRESHNESS);
    assert Deciding(c.policy, i) == EVIDENCE_CONFLICT || Deciding(c.policy, i) == EVIDENCE_FRESHNESS;
  }

  /** Whether the records that a run pushes for a queue were read back from persistence. */
  function OriginsFor(c: Config, st: Store, ps: seq<Presented>, q: QueuePath): seq<bool>
    decreases |ps|
  {
    if ps == [] then []
    else
      (if RecordFor(c, st, ps[0], q) == [] then [] else [ps[0].recovered])
      + OriginsFor(c, Ingested(c, st, ps[0]).0, ps[1..], q)
  }

  lemma OnlyRecoveredIsMarked(c: Config, p: Presented, s: Sample, source: SourceRecord)
    ensures RecoveredFlag in Assess(c, p, s, source).flags <==> p.recovered
  {}

  /** Once a sample has passed, its source has the sample's clock domain. */
  lemma SourceTakesDomain(c: Config, st: Store, s: Sample)
    requires SourceStep(c, st, s).1.Admitted() && s.observed.domain != []
    ensures SourceStep(c, st, s).0.sources[s.source].clockDomain == s.observed.domain
  {
    hide RecordedAll, JudgeEvents, Judge;
  }

  lemma SameDomainNoMismatch(c: Config, p: Presented, s: Sample, source: SourceRecord)
    requires s.observed.domain != [] ==> source.clockDomain == s.observed.domain
    ensures ClockDomainMismatch !in Assess(c, p, s, source).flags
  {}

  lemma RecordFlags(c: Config, q: QueueState, p: Presented, s: Sample, source: SourceRecord)
    ensures QueueStep(c, q, p, s, source).record.flags == Assess(c, p, s, source).flags
  {
    hide Assess;
  }

  lemma RecordTellsOrigin(c: Config, st: Store, p: Presented, q: QueuePath)
    requires c.Valid() && StoreInv(c, st)
    ensures |RecordFor(c, st, p, q)| <= 1
    ensures RecordFor(c, st, p, q) != [] ==> (RecoveredFlag in RecordFor(c, st, p, q)[0].flags <==> p.recovered)
    ensures RecordFor(c, st, p, q) != [] ==> ClockDomainMismatch !in RecordFor(c, st, p, q)[0].flags
  {
    hide Ingested, SourceStep, QueueStep, Assess, StoreInv;
    if Ingested(c, st, p).1.Admitted() && q == Stamped(p).queue {
      RecordOfOne(c, st, p);
      var s, queue, source := Stamped(p), QueueOf(c, st, q), SourceFor(c, st, p);
      RecordIsMarked(c, queue, p, s, source);
      RecordFlags(c, queue, p, s, source);
      if s.observed.domain != [] {
        SourceTakesDomain(c, Presenting(st), s);
      }
      SameDomainNoMismatch(c, p, s, source);
    }
  }

  lemma RecordIsMarked(c: Config, q: QueueState, p: Presented, s: Sample, source: SourceRecord)
    ensures RecoveredFlag in QueueStep(c, q, p, s, source).record.flags <==> p.recovered
  {
    hide Assess;
    OnlyRecoveredIsMarked(c, p, s, source);
  }

  lemma {:induction false} OriginsAreMarks(c: Config, st: Store, ps: seq<Presented>, q: QueuePath)
    requires c.Valid() && StoreInv(c, st)
    ensures (var xs, os := RecordsFor(c, st, ps, q), OriginsFor(c, st, ps, q);
      |xs| == |os| && forall i :: 0 <= i < |xs| ==>
        (RecoveredFlag in xs[i].flags <==> os[i]) && ClockDomainMismatch !in xs[i].flags)
    decreases |ps|
  {
    hide StoreInv, Ingested, RecordFor;
    if ps != [] {
      IngestedKeeps(c, st, ps[0]);
      RecordTellsOrigin(c, st, ps[0], q);
      OriginsAreMarks(c, Ingested(c, st, ps[0]).0, ps[1..], q);
    }
  }

  /** What is retained are the last of the records pushed, and none of those with an origin in
      persistence speaks for the present. */
  predicate OldOnesSilent(items: seq<HistoryRecord>, pushed: seq<HistoryRecord>, origins: seq<bool>) {
    |items| <= |pushed| == |origins|
    && (var past := |pushed| - |items|;
        items == pushed[past..]
        && forall i :: past <= i < |pushed| && origins[i] ==> !pushed[i].EstablishesCurrent())
  }

  /** Over any mix of ingest and recovery: what a ring retains are the newest records of its
      queue, and those among them that were read back from persistence, however old the run,
      cannot speak for the present. */
  lemma RecoveredNeverCurrent(c: Config, ps: seq<Presented>, q: QueuePath)
    requires c.Valid()
    ensures OldOnesSilent(RingOf(c, IngestedAll(c, Opened(c), ps), q).items,
                          RecordsFor(c, Opened(c), ps, q), OriginsFor(c, Opened(c), ps, q))
  {
    hide StoreInv, IngestedAll, RecordsFor, OriginsFor, RingOf, Opened;
    OpenedKeeps(c);
    RingsFromOpening(c, ps, q);
    OriginsAreMarks(c, Opened(c), ps, q);
  }

  lemma OpenedKeeps(c: Config)
    ensures StoreInv(c, Opened(c))
  {
    OpenedHolds(c);
  }

  /** Over any run no retained record carries the flag of a clock domain mismatch, whatever
      domains the samples of a source named: the domain of a source is taken from the sample
      before the two are compared. */
  lemma NoMismatchRecorded(c: Config, ps: seq<Presented>, q: QueuePath)
    requires c.Valid()
    ensures forall x :: x in RingOf(c, IngestedAll(c, Opened(c), ps), q).items ==> ClockDomainMismatch !in x.flags
  {
    hide StoreInv, IngestedAll, RecordsFor, OriginsFor, RingOf, Opened;
    OpenedKeeps(c);
    RingsFromOpening(c, ps, q);
    OriginsAreMarks(c, Opened(c), ps, q);
  }

  // ---- what sums over the window look at ---------------------------------------------------------------

  /** Two lists of records with the same reports and deltas. */
  predicate SameCounts(xs: seq<HistoryRecord>, ys: seq<HistoryRecord>) {
    |xs| == |ys| && forall i :: 0 <= i < |xs| ==> xs[i].reported == ys[i].reported && xs[i].deltas == ys[i].deltas
  }

  /** Neither age nor origin nor authority of a record matters to the sums. */
  lemma {:induction false} SumsIgnoreOrigin(xs: seq<HistoryRecord>, ys: seq<HistoryRecord>, f: Field)
    requires SameCounts(xs, ys)
    ensures SumOver(xs, f) == SumOver(ys, f)
    decreases |xs|
  {
    if xs != [] {
      SumsIgnoreOrigin(xs[1..], ys[1..], f);
    }
  }

  lemma {:induction false} SumAtLeast(xs: seq<HistoryRecord>, f: Field, x: HistoryRecord)
    requires x in xs && Contribution(x, f).known
    ensures SumOver(xs, f).known && SumOver(xs, f).delta >= Contribution(x, f).delta
    decreases |xs|
  {
    if x != xs[0] {
      SumAtLeast(xs[1..], f, x);
    }
  }

  /** So drops that only a recovered record reports can decide the state of a later, fresh
      sample whose own drop counter has not moved: recovered history is not without influence. */
  lemma RecoveredDropsCount(c: Config, q: QueueState, p: Presented, s: Sample, source: SourceRecord, x: HistoryRecord)
    requires RecoveredFlag in x.flags && x in SinceNewest(q.history.items, s.receivedNs - c.policy.evaluationWindowNs)
    requires Contribution(x, DROP_PACKETS).known && Contribution(x, DROP_PACKETS).delta >= c.policy.absolute.droppingAtDrops
    requires (var i := InputOf(c, q, s, Assess(c, p, s, source), ConflictAfter(c, q, s, source.authority));
      Deciding(c.policy, i) >= DROPPING_EVIDENCE)
    ensures QueueStep(c, q, p, s, source).classified.state == Dropping
  {
    hide Assess, ConflictAfter, ResolveBasis, Threshold, CounterEvents, CountersAfter, PeersAfter, Pushed, SinceNewest, SumOver, Contribution;
    var i := InputOf(c, q, s, Assess(c, p, s, source), ConflictAfter(c, q, s, source.authority));
    SumAtLeast(SinceNewest(q.history.items, s.receivedNs - c.policy.evaluationWindowNs), DROP_PACKETS, x);
    assert i.drops.known && i.drops.delta >= c.policy.absolute.droppingAtDrops;
    assert Matches(c.policy, i, DROPPING_EVIDENCE);
    assert Deciding(c.policy, i) == DROPPING_EVIDENCE;
  }

  /** After a sample has been admitted, its queue is in conflict exactly when some recent peer of
      the source's authority had reported the same quantity too differently; so a sample that
      reports no occupancy ends a conflict. */
  lemma ConflictAfterIff(c: Config, st: Store, p: Presented)
    requires c.Valid() && StoreInv(c, st) && c.policy.conflict.enabled && Ingested(c, st, p).1.Admitted()
    ensures (var (t, s) := (Ingested(c, st, p).0, Stamped(p));
      && s.queue in t.queues && s.source in t.sources
      && (t.queues[s.queue].conflictActive
          <==> exists peer :: peer in QueueOf(c, st, s.queue).peers && Contradicts(c, peer, s, t.sources[s.source].authority))
      && (OccupancyOf(s).None? ==> !t.queues[s.queue].conflictActive))
  {
    hide Ingested, SourceStep, QueueStep, Contradicts, OccupancyOf, StoreInv;
    QueuesAfterOne(c, st, p);
    var s, queue, source := Stamped(p), QueueOf(c, st, Stamped(p).queue), SourceFor(c, st, p);
    QueueStepFacts(c, queue, p, s, source);
    ConflictIff(c, queue, s, source.authority);
    if OccupancyOf(s).None? {
      NoOccupancyNoContradiction(c, queue, s, source.authority);
    }
  }

  lemma NoOccupancyNoContradiction(c: Config, q: QueueState, s: Sample, authority: Authority)
    requires OccupancyOf(s).None?
    ensures forall peer :: peer in q.peers ==> !Contradicts(c, peer, s, authority)
  {}

  /** A conflict is on exactly when some recent peer of equal authority reports the same
      quantity too differently. */
  lemma ConflictIff(c: Config, q: QueueState, s: Sample, authority: Authority)
    requires c.policy.conflict.enabled
    ensures ConflictAfter(c, q, s, authority) <==> exists p :: p in q.peers && Contradicts(c, p, s, authority)
  {}
}
