/** How far records read back from persistence reach into the sums that classify later samples. */
module RecoveredSums {
  import opened Wrappers
  import opened Bytes
  import opened Identity
  import opened Evidence
  import opened Policy
  import opened Classification
  import opened History
  import opened Admission
  import opened StoreSpec
  import opened StoreTheorems
  import opened StoreRuns
  import Counter

  // ---- sums over a window -----------------------------------------------------------------------

  function TrueTotal(xs: seq<HistoryRecord>, f: Field): nat {
    if xs == [] then 0 else TrueTotal(xs[1..], f) + (if Contribution(xs[0], f).known then Contribution(xs[0], f).delta else 0)
  }

  predicate SomeKnown(xs: seq<HistoryRecord>, f: Field) {
    exists x :: x in xs && Contribution(x, f).known
  }

  /** A sum is known when any record contributes, and is the true total short of 64 bits. */
  lemma {:induction false} SumIs(xs: seq<HistoryRecord>, f: Field)
    ensures SumOver(xs, f) == Delta(SomeKnown(xs, f), if TrueTotal(xs, f) > U64_MAX then U64_MAX else TrueTotal(xs, f))
    decreases |xs|
  {
    hide Contribution;
    if xs != [] {
      SumIs(xs[1..], f);
      assert xs == [xs[0]] + xs[1..];
      assert SomeKnown(xs, f) <==> Contribution(xs[0], f).known || SomeKnown(xs[1..], f);
      if !SomeKnown(xs[1..], f) {
        NoneKnown(xs[1..], f);
      }
    }
  }

  lemma {:induction false} NoneKnown(xs: seq<HistoryRecord>, f: Field)
    requires !SomeKnown(xs, f)
    ensures TrueTotal(xs, f) == 0
    decreases |xs|
  {
    if xs != [] {
      assert xs[0] in xs && forall x :: x in xs[1..] ==> x in xs;
      NoneKnown(xs[1..], f);
    }
  }

  /** Those that were not read back from persistence. */
  function FreshOnes(xs: seq<HistoryRecord>): seq<HistoryRecord> {
    if xs == [] then []
    else (if RecoveredFlag in xs[0].flags then [] else [xs[0]]) + FreshOnes(xs[1..])
  }

  function RecoveredTotal(xs: seq<HistoryRecord>, f: Field): nat {
    if xs == [] then 0
    else
      RecoveredTotal(xs[1..], f)
      + if RecoveredFlag in xs[0].flags && Contribution(xs[0], f).known then Contribution(xs[0], f).delta else 0
  }

  lemma {:induction false} TotalsSplit(xs: seq<HistoryRecord>, f: Field)
    ensures TrueTotal(xs, f) == TrueTotal(FreshOnes(xs), f) + RecoveredTotal(xs, f)
    ensures RecoveredTotal(xs, f) == 0
            <==> forall x :: x in xs && RecoveredFlag in x.flags && Contribution(x, f).known ==> Contribution(x, f).delta == 0
    ensures forall x :: x in FreshOnes(xs) <==> x in xs && RecoveredFlag !in x.flags
    decreases |xs|
  {
    hide Contribution;
    if xs != [] {
      TotalsSplit(xs[1..], f);
      assert xs == [xs[0]] + xs[1..];
      if RecoveredFlag !in xs[0].flags {
        assert FreshOnes(xs)[0] == xs[0] && FreshOnes(xs)[1..] == FreshOnes(xs[1..]);
      } else {
        assert FreshOnes(xs) == FreshOnes(xs[1..]);
      }
    }
  }

  /** Short of saturation, records read back from persistence leave a sum as it would be without
      them exactly when each adds nothing and, where any of them is known, a fresh one is too. */
  lemma RecoveredMatterIff(xs: seq<HistoryRecord>, f: Field)
    requires TrueTotal(xs, f) <= U64_MAX
    ensures SumOver(xs, f) == SumOver(FreshOnes(xs), f) <==>
      && (forall x :: x in xs && RecoveredFlag in x.flags && Contribution(x, f).known ==> Contribution(x, f).delta == 0)
      && (SomeKnown(xs, f) ==> exists x :: x in xs && RecoveredFlag !in x.flags && Contribution(x, f).known)
  {
    hide Contribution;
    SumIs(xs, f);
    SumIs(FreshOnes(xs), f);
    TotalsSplit(xs, f);
  }

  // ---- a run where they decide --------------------------------------------------------------------

  const SOMEONE: Name := [0x61]
  const SOMEWHERE := QueuePath(SOMEONE, SOMEONE, 0)

  const PLAIN := Config(
    PressurePolicy(1, SOMEONE, FreshnessPolicy(1_000, 1_000, 1_000), {}, {OCCUPANCY_CELLS}, true, true, false,
                   AbsoluteThresholds(Some(100), Some(200), Some(300), 5, 1, 1, 1), RelativeThresholds(100, 200, 300),
                   1_000, ConflictPolicy(false, 1, 0, 0)),
    Counter.Policy(Counter.Bits64, 0, None, true), Limits(1, 4, 4, 4, 4, 4), 1)

  /** A report of one cell and so many drops in all. */
  function Report(sequence: u64, drops: u64, receivedNs: i64, recovered: bool): Presented {
    Presented(Sample(SOMEWHERE, SOMEONE, SOMEONE, sequence, PRIMARY, 1, Counter.ObservationTime(0, []), receivedNs, 1,
                     {OCCUPANCY_CELLS, DROP_PACKETS}, {}, map[OCCUPANCY_CELLS := 1, DROP_PACKETS := drops]),
              recovered, false, 0, 0, receivedNs)
  }

  /** A known source carries on. */
  lemma KnownSourceGoesOn(c: Config, st: Store, p: Presented)
    requires (var s := Stamped(p);
      && !Invalid(s) && s.queue in st.queues && s.source in st.sources
      && (var r := st.sources[s.source];
          r.incarnation == s.incarnation && r.generation == s.generation && r.authority == s.authority && r.lastSequence < s.sequence))
    ensures (var s := Stamped(p); var source := Advanced(st.sources[s.source], s); var (t, o) := Ingested(c, st, p);
      && o == Accepted && t.sources.Keys == st.sources.Keys && t.queues == st.queues[s.queue := QueueStep(c, st.queues[s.queue], p, s, source).q]
      && t.sources[s.source] == source.(accepted := source.accepted + 1))
  {
    hide QueueStep, ConflictsAfter, RecordedAll, EventsOf, Recorded, TalliesAfter;
  }

  lemma FirstSampleRegisters(p: Presented)
    requires p == Report(1, 0, 0, true)
    ensures (var (t, o) := Ingested(PLAIN, Opened(PLAIN), p);
      && o == AcceptedNewSource && SOMEONE in t.sources
      && t.sources[SOMEONE] == Advanced(Registered(p.sample, 1), p.sample).(accepted := 1)
      && t.queues == map[SOMEWHERE := QueueStep(PLAIN, NewQueue(PLAIN), p, p.sample, Advanced(Registered(p.sample, 1), p.sample)).q])
  {
    hide QueueStep, ConflictsAfter, RecordedAll, EventsOf, Recorded, TalliesAfter;
    var q := QueueStep(PLAIN, NewQueue(PLAIN), p, p.sample, Advanced(Registered(p.sample, 1), p.sample)).q;
    assert map[SOMEWHERE := NewQueue(PLAIN)][SOMEWHERE := q] == map[SOMEWHERE := q];
  }

  /** What a report does to its queue, as far as drops go. */
  lemma ReportStep(q: QueueState, p: Presented, source: SourceRecord)
    requires |q.history.items| < q.history.capacity && p.sample.reported == {OCCUPANCY_CELLS, DROP_PACKETS}
    ensures (var o := QueueStep(PLAIN, q, p, p.sample, source); var (next, u) := UpdateOf(PLAIN, q, p.sample, DROP_PACKETS);
      && DROP_PACKETS in o.q.counters && o.q.counters[DROP_PACKETS] == next
      && o.q.history == q.history.(items := q.history.items + [o.record])
      && o.record.reported == p.sample.reported && o.record.receivedNs == p.sample.receivedNs
      && DROP_PACKETS in o.record.deltas && o.record.deltas[DROP_PACKETS] == Delta(u.known, u.delta)
      && (RecoveredFlag in o.record.flags <==> p.recovered) && o.q.conflictActive == q.conflictActive)
  {
    hide UpdateOf, CounterEvents, PeersAfter, InputOf, Classify, Assess;
    OnlyRecoveredIsMarked(PLAIN, p, p.sample, source);
  }

  lemma PlainIsValid()
    ensures PLAIN.Valid()
  {}

  /** How the drop counter reads the three reports. */
  lemma DropsRead(q1: QueueState, q2: QueueState)
    requires DROP_PACKETS in q1.counters && DROP_PACKETS in q2.counters
    requires q1.counters[DROP_PACKETS] == UpdateOf(PLAIN, NewQueue(PLAIN), Report(1, 0, 0, true).sample, DROP_PACKETS).0
    requires q2.counters[DROP_PACKETS] == UpdateOf(PLAIN, q1, Report(2, 5, 0, true).sample, DROP_PACKETS).0
    ensures (var u := UpdateOf(PLAIN, q1, Report(2, 5, 0, true).sample, DROP_PACKETS).1; u.known && u.delta == 5)
    ensures (var u := UpdateOf(PLAIN, q2, Report(3, 5, 10, false).sample, DROP_PACKETS).1; u.known && u.delta == 0)
  {
    var r1 := ReadingOf(Report(1, 0, 0, true).sample, DROP_PACKETS);
    var r2 := ReadingOf(Report(2, 5, 0, true).sample, DROP_PACKETS);
    assert r1.raw == 0 && r2.raw == 5;
  }

  /** The dropping rule decides as soon as a retained record of enough drops is in the window. */
  lemma DropsDecide(q: QueueState, source: SourceRecord, x: HistoryRecord)
    requires q.history.items != [] && q.history.items[|q.history.items| - 1] == x && !q.conflictActive
    requires RecoveredFlag in x.flags && x.receivedNs == 0 && DROP_PACKETS in x.reported
    requires DROP_PACKETS in x.deltas && x.deltas[DROP_PACKETS] == Delta(true, 5)
    ensures (var p := Report(3, 5, 10, false); QueueStep(PLAIN, q, p, p.sample, source).q.latest == Dropping)
  {
    hide CounterEvents, CountersAfter, PeersAfter, Pushed, SumOver, DeltasOf, WindowSum, FirstFrom, Threshold;
    var p := Report(3, 5, 10, false);
    var a := Assess(PLAIN, p, p.sample, source);
    assert a.freshness == Evidence.Fresh && a.quality == Complete;
    var i := InputOf(PLAIN, q, p.sample, a, ConflictAfter(PLAIN, q, p.sample, source.authority));
    assert i.reported == {OCCUPANCY_CELLS, DROP_PACKETS} && OCCUPANCY_CELLS in PLAIN.policy.requiredAny * i.reported;
    assert Cells(i) == Some(1) && ResolveBasis(PLAIN.policy, i).kind == Absolute;
    assert forall r: Rule :: r < DROPPING_EVIDENCE ==> !Matches(PLAIN.policy, i, r);
    RecoveredDropsCount(PLAIN, q, p, p.sample, source, x);
  }

  lemma TwoIngested(a: Presented, b: Presented)
    ensures IngestedAll(PLAIN, Opened(PLAIN), [a, b]) == Ingested(PLAIN, Ingested(PLAIN, Opened(PLAIN), a).0, b).0
  {
    hide Ingested;
    var st1 := Ingested(PLAIN, Opened(PLAIN), a).0;
    var st2 := Ingested(PLAIN, st1, b).0;
    assert [a, b][1..] == [b] && [b][1..] == [];
    assert IngestedAll(PLAIN, st2, []) == st2;
    assert IngestedAll(PLAIN, st1, [b]) == IngestedAll(PLAIN, st2, []);
  }

  /** Two recovered reports between which five packets were dropped, and a fresh report ten
      nanoseconds on that says nothing has been dropped since: the queue is classified as dropping. */
  lemma RecoveredDropsDecide()
    ensures (var before := [Report(1, 0, 0, true), Report(2, 5, 0, true)]; var p := Report(3, 5, 10, false);
      var st := IngestedAll(PLAIN, Opened(PLAIN), before);
      && PLAIN.Valid() && SOMEWHERE in st.queues && !p.recovered
      && DROP_PACKETS in DeltasOf(PLAIN, st.queues[SOMEWHERE], p.sample)
      && DeltasOf(PLAIN, st.queues[SOMEWHERE], p.sample)[DROP_PACKETS] == Delta(true, 0)
      && (var (t, o) := Ingested(PLAIN, st, p); o.Admitted() && SOMEWHERE in t.queues && t.queues[SOMEWHERE].latest == Dropping))
  {
    hide Ingested, QueueStep, UpdateOf, InputOf, Classify, SinceNewest, Counter.Observed;
    var p1, p2, p3 := Report(1, 0, 0, true), Report(2, 5, 0, true), Report(3, 5, 10, false);
    var before := [p1, p2];
    TwoIngested(p1, p2);
    PlainIsValid();
    FirstSampleRegisters(p1);
    var st1 := Ingested(PLAIN, Opened(PLAIN), p1).0;
    var q1 := st1.queues[SOMEWHERE];
    ReportStep(NewQueue(PLAIN), p1, Advanced(Registered(p1.sample, 1), p1.sample));
    KnownSourceGoesOn(PLAIN, st1, p2);
    var st2 := Ingested(PLAIN, st1, p2).0;
    ReportStep(q1, p2, Advanced(st1.sources[SOMEONE], p2.sample));
    KnownSourceGoesOn(PLAIN, st2, p3);
    DropsRead(q1, st2.queues[SOMEWHERE]);
    DropsDecide(st2.queues[SOMEWHERE], Advanced(st2.sources[SOMEONE], p3.sample),
                QueueStep(PLAIN, q1, p2, p2.sample, Advanced(st1.sources[SOMEONE], p2.sample)).record);
  }
}
