/** The store as the runtime executes it: maps and lists updated in place under the
    store's lock, each operation tied to StoreSpec. */
module StoreCode {
  import opened Wrappers
  import opened Bytes
  import opened Identity
  import opened Evidence
  import opened Policy
  import opened Classification
  import opened History
  import opened Admission
  import opened StoreSpec
  import opened StoreTheorems
  import Counter

  // ---- decisions that change nothing ------------------------------------------------------

  method FindOrdinal(recent: seq<(Name, nat)>, token: Name) returns (r: Option<nat>)
    ensures r == OrdinalOf(recent, token)
  {
    assert recent[0..] == recent;
    for i := 0 to |recent|
      invariant OrdinalOf(recent, token) == OrdinalOf(recent[i..], token)
    {
      if recent[i].0 == token {
        return Some(recent[i].1);
      }
      assert recent[i..][1..] == recent[i + 1..];
    }
    return None;
  }

  /** Fence by fence; what changed before a fence stays changed. */
  method JudgeKnown(known: SourceRecord, s: Sample, free: nat) returns (record: SourceRecord, nextOrdinal: nat, outcome: Outcome, kinds: seq<EventKind>)
    ensures Verdict(record, nextOrdinal, outcome) == Judge(known, s, free)
    ensures EventsOf(kinds, s.queue) == JudgeEvents(known, s)
  {
    record, nextOrdinal, outcome, kinds := known, free, Accepted, [];
    if record.incarnation != s.incarnation {
      var ordinal := FindOrdinal(record.recent, s.incarnation);
      if ordinal.Some? && ordinal.value < record.ordinal {
        return record, nextOrdinal, FencedStaleIncarnation, kinds;
      }
      if ordinal.Some? && ordinal.value == record.ordinal {
        return record, nextOrdinal, FencedStaleIncarnation, kinds;
      }
      record := record.(incarnation := s.incarnation, ordinal := nextOrdinal, lastSequence := 0,
                        recent := [(s.incarnation, nextOrdinal)] + record.recent);
      nextOrdinal := nextOrdinal + 1;
      while |record.recent| > REMEMBERED
        invariant record == Reincarnated(known, s, free).(recent := record.recent)
        invariant Shortened(record.recent) == Reincarnated(known, s, free).recent
        decreases |record.recent|
      {
        record := record.(recent := record.recent[..|record.recent| - 1]);
      }
      outcome := AcceptedNewIncarnation;
      kinds := kinds + [SourceIncarnationChanged];
    }
    if s.generation < record.generation {
      return record, nextOrdinal, FencedStaleGeneration, kinds;
    }
    if s.generation > record.generation {
      record := record.(generation := s.generation);
      if outcome == Accepted {
        outcome := AcceptedNewGeneration;
      }
      kinds := kinds + [GenerationAdvanced];
    }
    if s.authority < record.authority {
      return record, nextOrdinal, FencedAuthorityDowngrade, kinds;
    }
    if s.authority > record.authority {
      record := record.(authority := s.authority, declared := s.authority);
      kinds := kinds + [SourceAuthorityChanged];
    }
    if s.sequence <= record.lastSequence {
      record := record.(duplicates := record.duplicates + 1);
      return record, nextOrdinal, FencedStaleSequence, kinds;
    }
  }

  /** Interprets every counter the sample reports, in field order. */
  method InterpretCounters(c: Config, q: QueueState, s: Sample)
    returns (counters: map<Field, Counter.State>, deltas: map<Field, Delta>, kinds: seq<EventKind>)
    ensures counters == CountersAfter(c, q, s) && deltas == DeltasOf(c, q, s)
    ensures kinds == CounterEvents(c, q, s, 0)
  {
    hide UpdateOf, ContinuityEvent, CounterEvents, CountersReported;
    counters, deltas, kinds := q.counters, map[], [];
    for index := 0 to FIELD_COUNT
      invariant forall f: Field :: f in deltas <==> f in CountersReported(s) && f < index
      invariant forall f: Field :: f in deltas ==>
        deltas[f] == Delta(UpdateOf(c, q, s, f).1.known, UpdateOf(c, q, s, f).1.delta)
      invariant forall f: Field :: f in counters <==> f in q.counters || f in deltas
      invariant forall f: Field :: f in counters ==>
        counters[f] == if f in deltas then UpdateOf(c, q, s, f).0 else q.counters[f]
      invariant kinds + CounterEvents(c, q, s, index) == CounterEvents(c, q, s, 0)
    {
      var field: Field := index;
      CounterEventsStep(c, q, s, index);
      ReportedCounter(s, field);
      if IsCounter(field) && field in s.reported {
        var (state, update) := UpdateOf(c, q, s, field);
        counters := counters[field := state];
        deltas := deltas[field := Delta(update.known, update.delta)];
        var kind := ContinuityEvent(update.continuity);
        if kind.Some? {
          ghost var rest := CounterEvents(c, q, s, index + 1);
          assert kinds + ([kind.value] + rest) == (kinds + [kind.value]) + rest;
          kinds := kinds + [kind.value];
        }
      }
    }
    NoMoreEvents(c, q, s);
    assert kinds + [] == kinds;
    assert deltas == DeltasOf(c, q, s);
    assert counters == CountersAfter(c, q, s);
  }

  lemma ReportedCounter(s: Sample, f: Field)
    ensures f in CountersReported(s) <==> IsCounter(f) && f in s.reported
  {}

  lemma NoMoreEvents(c: Config, q: QueueState, s: Sample)
    ensures CounterEvents(c, q, s, FIELD_COUNT) == []
  {}

  lemma CounterEventsStep(c: Config, q: QueueState, s: Sample, f: nat)
    requires f < FIELD_COUNT
    ensures CounterEvents(c, q, s, f) ==
            (if f in CountersReported(s) && ContinuityEvent(UpdateOf(c, q, s, f).1.continuity).Some? then
               [ContinuityEvent(UpdateOf(c, q, s, f).1.continuity).value]
             else []) + CounterEvents(c, q, s, f + 1)
  {
    hide CountersReported, ContinuityEvent, UpdateOf;
    assert [] + CounterEvents(c, q, s, f + 1) == CounterEvents(c, q, s, f + 1);
  }

  method FindContradiction(c: Config, peers: seq<Peer>, s: Sample, authority: Authority) returns (r: Option<Peer>)
    ensures r == Contradicting(c, peers, s, authority)
  {
    hide Contradicts;
    assert peers[0..] == peers;
    for i := 0 to |peers|
      invariant Contradicting(c, peers, s, authority) == Contradicting(c, peers[i..], s, authority)
    {
      if Contradicts(c, peers[i], s, authority) {
        return Some(peers[i]);
      }
      assert peers[i..][1..] == peers[i + 1..];
    }
    return None;
  }

  method UpdatePeers(c: Config, peers: seq<Peer>, p: Peer) returns (r: seq<Peer>)
    ensures r == PeersAfter(c, peers, p)
  {
    assert peers[0..] == peers;
    for i := 0 to |peers|
      invariant PlaceOf(peers, p.source) == i + PlaceOf(peers[i..], p.source)
    {
      if peers[i].source == p.source {
        return peers[i := p];
      }
      assert peers[i..][1..] == peers[i + 1..];
    }
    r := peers;
    if |r| >= c.limits.maxSources && r != [] {
      r := r[1..];
    }
    r := r + [p];
  }

  // ---- the store ------------------------------------------------------------------------------

  class QueueStore {
    const config: Config
    var sources: map<Name, SourceRecord>
    var nextOrdinal: nat
    var queues: map<QueuePath, QueueState>
    var conflicts: seq<ConflictRecord>
    var log: EventLog
    var historyBytes: nat
    var tallies: Tallies

    ghost function View(): Store
      reads this
    {
      Store(sources, nextOrdinal, queues, conflicts, log, historyBytes, tallies)
    }

    constructor (config: Config)
      ensures this.config == config && View() == Opened(config)
    {
      this.config := config;
      sources, nextOrdinal, queues, conflicts := map[], 1, map[], [];
      log, historyBytes := EventLog(config.limits.maxEvents, [], 0, 0), 0;
      tallies := Tallies(0, 0, 0, 0, 0, 0, 0, 0, 0, 0, 0, 0, 0, 0, 0);
    }

    method RecordEvent(kind: EventKind, queue: QueuePath)
      modifies `log
      ensures log == Recorded(old(log), Event(kind, queue))
    {
      if log.capacity == 0 {
        return;
      }
      if |log.items| < log.capacity {
        log := log.(items := log.items + [Event(kind, queue)]);
      } else {
        log := log.(items := log.items[1..] + [Event(kind, queue)], evicted := log.evicted + 1);
      }
      log := log.(recorded := log.recorded + 1);
    }

    method RecordKinds(kinds: seq<EventKind>, queue: QueuePath)
      modifies `log
      ensures log == RecordedAll(old(log), EventsOf(kinds, queue))
    {
      hide Recorded;
      ghost var es := EventsOf(kinds, queue);
      for i := 0 to |kinds|
        invariant log == RecordedAll(old(log), es[..i])
      {
        assert es[..i + 1][..i] == es[..i] && es[i] == Event(kinds[i], queue);
        RecordEvent(kinds[i], queue);
      }
      assert es[..|kinds|] == es;
    }

    method RejectSample(queue: QueuePath)
      modifies `log, `tallies
      ensures View() == Reject(old(View()), queue)
    {
      hide Recorded;
      tallies := tallies.(rejected := tallies.rejected + 1);
      RecordEvent(SampleRejected, queue);
    }

    method FenceSample(s: Sample, outcome: Outcome)
      modifies `log, `tallies, `sources
      ensures View() == Fence(old(View()), s, outcome)
    {
      hide Recorded;
      tallies := tallies.(fenced := tallies.fenced + 1);
      if s.source in sources {
        sources := sources[s.source := sources[s.source].(fenced := sources[s.source].fenced + 1)];
      }
      RecordEvent(if outcome == FencedStaleSequence then DuplicateReplay else SampleFenced, s.queue);
    }

    /** Registers or judges the sample's source. */
    method LookAtSource(s: Sample) returns (outcome: Outcome)
      modifies `sources, `nextOrdinal, `log, `tallies
      ensures (View(), outcome) == SourceStep(config, old(View()), s)
      ensures outcome.Admitted() ==> s.source in sources
    {
      hide Recorded, Judge, Fence;
      if s.source !in sources {
        if |sources| >= config.limits.maxSources {
          RejectSample(s.queue);
          return RejectedLimit;
        }
        sources := sources[s.source := Advanced(Registered(s, nextOrdinal), s)];
        nextOrdinal := nextOrdinal + 1;
        tallies := tallies.(sourcesRegistered := tallies.sourcesRegistered + 1);
        RecordEvent(SourceRegistered, s.queue);
        return AcceptedNewSource;
      }
      outcome := LookAtKnown(s);
    }

    method LookAtKnown(s: Sample) returns (outcome: Outcome)
      requires s.source in sources
      modifies `sources, `nextOrdinal, `log, `tallies
      ensures (View(), outcome) == SourceStep(config, old(View()), s)
    {
      hide Recorded, RecordedAll, Judge, JudgeEvents, Fence, EventsOf;
      var record, next, fate, kinds := JudgeKnown(sources[s.source], s, nextOrdinal);
      RecordKinds(kinds, s.queue);
      nextOrdinal := next;
      if fate.Fenced() {
        if fate == FencedStaleSequence {
          tallies := tallies.(duplicates := tallies.duplicates + 1);
        }
        sources := sources[s.source := record];
        FenceSample(s, fate);
        return fate;
      }
      sources := sources[s.source := Advanced(record, s)];
      return fate;
    }

    method AcquireQueue(q: QueuePath)
      modifies `queues, `historyBytes, `log
      ensures View() == WithQueue(config, old(View()), q)
    {
      hide Recorded;
      if q in queues {
        return;
      }
      queues := queues[q := NewQueue(config)];
      historyBytes := historyBytes + config.PerQueue();
      RecordEvent(QueueCreated, q);
    }

    /** Opens or closes the queue's conflict, if the sample calls for it. */
    method DetectConflict(q: QueueState, s: Sample, authority: Authority) returns (active: bool, kinds: seq<EventKind>)
      modifies `conflicts
      ensures active == ConflictAfter(config, q, s, authority)
      ensures conflicts == ConflictsAfter(config, old(conflicts), q, s, authority)
      ensures kinds == if active && !q.conflictActive then [ConflictDetected]
                       else if !active && q.conflictActive then [ConflictCleared] else []
    {
      hide Contradicts, NewConflict;
      if !config.policy.conflict.enabled {
        return q.conflictActive, [];
      }
      var peer := FindContradiction(config, q.peers, s, authority);
      active := peer.Some?;
      if active && !q.conflictActive {
        if |conflicts| >= config.limits.maxConflicts && conflicts != [] {
          conflicts := conflicts[1..];
        }
        ContradictionHasOccupancy(config, peer.value, s, authority);
        conflicts := conflicts + [NewConflict(config, s, peer.value)];
        return active, [ConflictDetected];
      }
      if !active && q.conflictActive {
        CloseConflict(s.queue);
        return active, [ConflictCleared];
      }
      return active, [];
    }

    method CloseConflict(q: QueuePath)
      modifies `conflicts
      ensures conflicts == Closed(old(conflicts), q)
    {
      hide Closed;
      var i := |conflicts|;
      assert conflicts[..i] == conflicts && conflicts[i..] == [];
      while i > 0
        invariant 0 <= i <= |conflicts| && conflicts == old(conflicts)
        invariant Closed(conflicts, q) == Closed(conflicts[..i], q) + conflicts[i..]
      {
        i := i - 1;
        ghost var front := conflicts[..i + 1];
        assert front[..i] == conflicts[..i] && front[i] == conflicts[i];
        ClosedStep(front, q);
        if conflicts[i].queue == q && conflicts[i].active {
          assert conflicts[..i] + [conflicts[i].(active := false)] + conflicts[i + 1..]
              == conflicts[i := conflicts[i].(active := false)];
          conflicts := conflicts[i := conflicts[i].(active := false)];
          return;
        }
        assert Closed(conflicts[..i], q) + [conflicts[i]] + conflicts[i + 1..]
            == Closed(conflicts[..i], q) + ([conflicts[i]] + conflicts[i + 1..]);
        assert [conflicts[i]] + conflicts[i + 1..] == conflicts[i..];
      }
      assert conflicts[..0] == [] && [] + conflicts[0..] == conflicts;
      NoneClosed(q);
    }

    lemma ClosedStep(front: seq<ConflictRecord>, q: QueuePath)
      requires front != []
      ensures (var last := front[|front| - 1];
        Closed(front, q) == if last.queue == q && last.active then front[..|front| - 1] + [last.(active := false)]
                            else Closed(front[..|front| - 1], q) + [last])
    {}

    lemma NoneClosed(q: QueuePath)
      ensures Closed([], q) == []
    {}

    /** Takes the sample into its queue: counters, conflict, classification, history, peers. */
    method TakeSample(p: Presented, s: Sample) returns (classified: Classified)
      requires s.source in sources && s.queue in queues
      modifies this
      ensures View() == Taken(config, old(View()), p, s)
      ensures classified == QueueStep(config, old(queues[s.queue]), p, s, old(sources[s.source])).classified
    {
      hide Assess, CountersAfter, DeltasOf, CounterEvents, InputOf, ConflictAfter, ConflictsAfter, PeersAfter, Pushed, Classify, RecordedAll, EventsOf, CountKind, TalliesAfter, RecordOf, OccupancyOf, CountersReported;
      var source, q := sources[s.source], queues[s.queue];
      var counters, deltas, kinds := InterpretCounters(config, q, s);
      var active, edge := DetectConflict(q, s, source.authority);
      kinds := kinds + edge;
      var a := Assess(config, p, s, source);
      classified := ClassifyInput(config.policy, InputOf(config, q, s, a, active));
      var changed := q.history.items != [] && q.latest != classified.state;
      kinds := kinds + (if changed then [StateTransition] else []);
      var history := Pushed(q.history, RecordOf(config, q, s, source, a, classified.state));
      var evictions := if history.evicted > q.history.evicted then history.evicted - q.history.evicted else 0;
      kinds := kinds + (if evictions > 0 then [HistoryEvicted] else []);
      var peers := UpdatePeers(config, q.peers, Peer(s.source, source.authority, OccupancyOf(s), s.receivedNs));
      RecordKinds(kinds, s.queue);
      queues := queues[s.queue := QueueState(counters, q.countersSeen + CountersReported(s), history, classified.state,
                                             peers, active, q.accepted + 1,
                                             if active && !q.conflictActive then q.conflicts + 1 else q.conflicts)];
      sources := sources[s.source := source.(accepted := source.accepted + 1)];
      tallies := TalliesAfter(tallies, kinds, changed, evictions, q.conflictActive, active);
    }

    /** One sample, under the lock. */
    method IngestLocked(p: Presented) returns (outcome: Outcome)
      modifies this
      ensures (View(), outcome) == Ingested(config, old(View()), p)
    {
      hide SourceStep, Taken, Reject, WithQueue;
      var s := Stamped(p);
      tallies := tallies.(presented := tallies.presented + 1);
      if Invalid(s) {
        RejectSample(s.queue);
        return RejectedInvalid;
      }
      outcome := LookAtSource(s);
      if !outcome.Admitted() {
        return;
      }
      if s.queue !in queues && |queues| >= config.limits.maxQueues {
        RejectSample(s.queue);
        return RejectedLimit;
      }
      if s.queue !in queues && historyBytes + config.PerQueue() > config.limits.maxHistoryBytes {
        RejectSample(s.queue);
        return RejectedLimit;
      }
      AcquireQueue(s.queue);
      var _ := TakeSample(p, s);
    }

    /** Evidence read back from persistence: the whole batch in recovered mode. */
    method AdmitRecovered(ps: seq<Presented>) returns (accepted: nat, rejected: nat, fenced: nat)
      modifies this
      ensures View() == IngestedAll(config, old(View()), AsRecovered(ps))
      ensures accepted + rejected + fenced == |ps|
    {
      var status;
      status, accepted, rejected, fenced := IngestBatch(AsRecovered(ps), None);
    }

    /** A batch, sample by sample, until the token is seen raised. */
    method IngestBatch(ps: seq<Presented>, token: Option<nat>) returns (status: Status, accepted: nat, rejected: nat, fenced: nat)
      modifies this
      ensures (var reached := if token.Some? && token.value < |ps| then ps[..token.value] else ps;
        && View() == IngestedAll(config, old(View()), reached)
        && accepted + rejected + fenced == |reached|
        && (status == Ok <==> |reached| == |ps|))
    {
      hide Ingested;
      accepted, rejected, fenced := 0, 0, 0;
      ghost var reached := if token.Some? && token.value < |ps| then ps[..token.value] else ps;
      assert reached[0..] == reached;
      for index := 0 to |ps|
        invariant index <= |reached| && accepted + rejected + fenced == index
        invariant IngestedAll(config, View(), reached[index..]) == IngestedAll(config, old(View()), reached)
      {
        if token == Some(index) {
          return Failure(Cancelled), accepted, rejected, fenced;
        }
        assert reached[index..][0] == ps[index] && reached[index..][1..] == reached[index + 1..];
        var outcome := IngestLocked(ps[index]);
        if outcome == RejectedInvalid || outcome == RejectedLimit {
          rejected := rejected + 1;
        } else if outcome.Admitted() {
          accepted := accepted + 1;
        } else {
          fenced := fenced + 1;
        }
      }
      return Ok, accepted, rejected, fenced;
    }
  }

  function AsRecovered(ps: seq<Presented>): (r: seq<Presented>)
    ensures |r| == |ps|
  {
    seq(|ps|, i requires 0 <= i < |ps| => ps[i].(recovered := true))
  }

  lemma ContradictionHasOccupancy(c: Config, p: Peer, s: Sample, authority: Authority)
    requires Contradicts(c, p, s, authority)
    ensures p.occupancy.Some? && OccupancyOf(s).Some?
  {}
}
