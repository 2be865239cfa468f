/** What holds of the evidence store over every run. */
module StoreTheorems {
  import opened Wrappers
  import opened Bytes
  import opened Identity
  import opened Evidence
  import opened Policy
  import opened Classification
  import opened History
  import opened Admission
  import opened StoreSpec

  // ---- the invariant, in parts -------------------------------------------------------------

  /** Every sample presented was accepted, rejected or fenced. */
  predicate Balanced(t: Tallies) {
    t.presented == t.accepted + t.rejected + t.fenced && t.pushed == t.accepted
  }

  ghost predicate SourcesOk(sources: map<Name, SourceRecord>, nextOrdinal: nat, most: nat) {
    |sources| <= most && forall id :: id in sources ==> Remembers(sources[id], nextOrdinal)
  }

  ghost predicate RingsOk(queues: map<QueuePath, QueueState>, capacity: nat) {
    forall q :: q in queues ==> queues[q].history.capacity == capacity && queues[q].history.Valid()
  }

  /** The budget: every queue costs the same, and all together stay within it. */
  ghost predicate WithinBudget(c: Config, queues: map<QueuePath, QueueState>, historyBytes: nat) {
    |queues| <= c.limits.maxQueues && historyBytes == |queues| * c.PerQueue() && historyBytes <= c.limits.maxHistoryBytes
  }

  function Active(queues: map<QueuePath, QueueState>): set<QueuePath> {
    set q | q in queues && queues[q].conflictActive
  }

  /** The retained records of all queues, as queue and position. */
  ghost function RetainedCells(queues: map<QueuePath, QueueState>): set<(QueuePath, nat)> {
    set q, i: nat | q in queues && 0 <= i < |queues[q].history.items| :: (q, i)
  }

  ghost predicate Matched(queues: map<QueuePath, QueueState>, t: Tallies) {
    && t.conflictsDetected == t.conflictsCleared + |Active(queues)|
    && t.pushed == t.evicted + |RetainedCells(queues)|
  }

  ghost predicate LogOk(l: EventLog, capacity: nat) {
    l.capacity == capacity && |l.items| <= l.capacity && l.recorded == l.evicted + |l.items|
  }

  ghost predicate StoreInv(c: Config, st: Store) {
    && Balanced(st.tallies) && SourcesOk(st.sources, st.nextOrdinal, c.limits.maxSources)
    && RingsOk(st.queues, c.limits.maxSamples) && WithinBudget(c, st.queues, st.historyBytes)
    && Matched(st.queues, st.tallies) && LogOk(st.log, c.limits.maxEvents)
    && |st.conflicts| <= c.limits.maxConflicts
  }

  // ---- logs ----------------------------------------------------------------------------------

  lemma RecordedKeeps(l: EventLog, e: Event, capacity: nat)
    requires LogOk(l, capacity)
    ensures LogOk(Recorded(l, e), capacity)
  {}

  lemma {:induction false} RecordedAllKeeps(l: EventLog, es: seq<Event>, capacity: nat)
    requires LogOk(l, capacity)
    ensures LogOk(RecordedAll(l, es), capacity)
    decreases |es|
  {
    hide LogOk;
    if es != [] {
      RecordedAllKeeps(l, es[..|es| - 1], capacity);
      RecordedKeeps(RecordedAll(l, es[..|es| - 1]), es[|es| - 1], capacity);
    }
  }

  /** The log holds the newest events recorded, in order, and counts all the others. */
  lemma {:induction false} LogHoldsNewest(capacity: nat, es: seq<Event>)
    requires capacity > 0
    ensures (var l := RecordedAll(EventLog(capacity, [], 0, 0), es);
      && l.capacity == capacity && l.items == Newest(es, capacity)
      && l.recorded == |es| && l.evicted + |l.items| == |es|)
    decreases |es|
  {
    if es != [] {
      var before, e := es[..|es| - 1], es[|es| - 1];
      LogHoldsNewest(capacity, before);
      NewestGrows(before, e, capacity);
      assert before + [e] == es;
    }
  }

  // ---- sources --------------------------------------------------------------------------------

  lemma SourcesLater(sources: map<Name, SourceRecord>, a: nat, b: nat, most: nat)
    requires SourcesOk(sources, a, most) && a <= b
    ensures SourcesOk(sources, b, most)
  {}

  lemma SourceReplaced(sources: map<Name, SourceRecord>, nextOrdinal: nat, most: nat, id: Name, r: SourceRecord)
    requires SourcesOk(sources, nextOrdinal, most) && Remembers(r, nextOrdinal)
    requires id in sources || |sources| < most
    ensures SourcesOk(sources[id := r], nextOrdinal, most)
  {
    hide Remembers;
    SizeAfter(sources, id, r);
  }

  lemma SizeAfter<K, V>(m: map<K, V>, k: K, v: V)
    ensures |m[k := v]| == if k in m then |m| else |m| + 1
  {
    assert m[k := v].Keys == m.Keys + {k};
    assert |m[k := v].Keys| == |m[k := v]| && |m.Keys| == |m|;
    if k in m {
      assert m.Keys + {k} == m.Keys;
    }
  }

  lemma RegisteredRemembers(s: Sample, n: nat)
    ensures Remembers(Advanced(Registered(s, n), s), n + 1)
  {}

  lemma TalliesDoNotMatter(r: SourceRecord, q: SourceRecord, n: nat)
    requires Remembers(r, n) && q.recent == r.recent && q.incarnation == r.incarnation && q.ordinal == r.ordinal
    ensures Remembers(q, n)
  {}

  /** What looking at the source does to the store. */
  lemma SourceStepFacts(c: Config, st: Store, s: Sample)
    requires SourcesOk(st.sources, st.nextOrdinal, c.limits.maxSources) && LogOk(st.log, c.limits.maxEvents)
    ensures (var (t, o) := SourceStep(c, st, s);
      && SourcesOk(t.sources, t.nextOrdinal, c.limits.maxSources) && LogOk(t.log, c.limits.maxEvents)
      && t.queues == st.queues && t.conflicts == st.conflicts && t.historyBytes == st.historyBytes
      && t.tallies == st.tallies.(rejected := t.tallies.rejected, fenced := t.tallies.fenced,
                                  duplicates := t.tallies.duplicates, sourcesRegistered := t.tallies.sourcesRegistered)
      && t.tallies.rejected == st.tallies.rejected + (if o == RejectedLimit then 1 else 0)
      && t.tallies.fenced == st.tallies.fenced + (if o.Fenced() then 1 else 0)
      && (o == RejectedLimit || o.Fenced() || o.Admitted()) && (o != RejectedLimit ==> s.source in t.sources)
      && (s.source in st.sources ==> s.source in t.sources && t.sources[s.source] == Marked(Judge(st.sources[s.source], s, st.nextOrdinal), s)
                                     && o == Judge(st.sources[s.source], s, st.nextOrdinal).outcome)
      && (s.source !in st.sources && o != RejectedLimit ==>
            t.sources[s.source] == Advanced(Registered(s, st.nextOrdinal), s) && o == AcceptedNewSource)
      && (forall id :: id != s.source ==> (id in t.sources <==> id in st.sources))
      && (forall id :: id != s.source && id in st.sources ==> t.sources[id] == st.sources[id]))
  {
    hide Remembers, LogOk, Judge, JudgeEvents, Recorded, RecordedAll;
    if s.source !in st.sources {
      if |st.sources| >= c.limits.maxSources {
        RecordedKeeps(st.log, Event(SampleRejected, s.queue), c.limits.maxEvents);
      } else {
        RecordedKeeps(st.log, Event(SourceRegistered, s.queue), c.limits.maxEvents);
        RegisteredRemembers(s, st.nextOrdinal);
        SourcesLater(st.sources, st.nextOrdinal, st.nextOrdinal + 1, c.limits.maxSources);
        SourceReplaced(st.sources, st.nextOrdinal + 1, c.limits.maxSources, s.source, Advanced(Registered(s, st.nextOrdinal), s));
      }
    } else {
      KnownSourceFacts(c, st, s);
    }
  }

  lemma KnownSourceFacts(c: Config, st: Store, s: Sample)
    requires SourcesOk(st.sources, st.nextOrdinal, c.limits.maxSources) && LogOk(st.log, c.limits.maxEvents)
    requires s.source in st.sources
    ensures (var (t, o) := SourceStep(c, st, s);
      var v := Judge(st.sources[s.source], s, st.nextOrdinal);
      && o == v.outcome && t.sources == st.sources[s.source := Marked(v, s)] && t.nextOrdinal == v.nextOrdinal
      && SourcesOk(t.sources, t.nextOrdinal, c.limits.maxSources) && LogOk(t.log, c.limits.maxEvents)
      && (o.Fenced() || o.Admitted())
      && t == st.(sources := t.sources, nextOrdinal := t.nextOrdinal, log := t.log,
                  tallies := st.tallies.(fenced := t.tallies.fenced, duplicates := t.tallies.duplicates))
      && t.tallies.fenced == st.tallies.fenced + (if o.Fenced() then 1 else 0))
  {
    hide Remembers, LogOk, Judge, JudgeEvents, Recorded, RecordedAll;
    var r := st.sources[s.source];
    var v := Judge(r, s, st.nextOrdinal);
    JudgeAdvances(r, s, st.nextOrdinal);
    SourcesLater(st.sources, st.nextOrdinal, v.nextOrdinal, c.limits.maxSources);
    SourceReplaced(st.sources, v.nextOrdinal, c.limits.maxSources, s.source, Marked(v, s));
    var log := RecordedAll(st.log, JudgeEvents(r, s));
    RecordedAllKeeps(st.log, JudgeEvents(r, s), c.limits.maxEvents);
    RecordedKeeps(log, Event(if v.outcome == FencedStaleSequence then DuplicateReplay else SampleFenced, s.queue), c.limits.maxEvents);
    var once := st.sources[s.source := v.record];
    assert once[s.source := Marked(v, s)] == st.sources[s.source := Marked(v, s)];
  }

  // ---- queues -----------------------------------------------------------------------------------

  /** The parts of the invariant that concern queues. */
  ghost predicate QueuesOk(c: Config, st: Store) {
    && RingsOk(st.queues, c.limits.maxSamples) && WithinBudget(c, st.queues, st.historyBytes)
    && Matched(st.queues, st.tallies) && LogOk(st.log, c.limits.maxEvents)
  }

  /** An empty queue brings no records and no conflict. */
  lemma EmptyQueueAdds(queues: map<QueuePath, QueueState>, q: QueuePath, x: QueueState)
    requires q !in queues && x.history.items == [] && !x.conflictActive
    ensures Active(queues[q := x]) == Active(queues) && RetainedCells(queues[q := x]) == RetainedCells(queues)
  {}

  lemma WithQueueKeeps(c: Config, st: Store, q: QueuePath)
    requires QueuesOk(c, st) && !NoRoom(c, st, q)
    ensures (var t := WithQueue(c, st, q);
      && QueuesOk(c, t) && q in t.queues && t.sources == st.sources && t.nextOrdinal == st.nextOrdinal
      && t.tallies == st.tallies && t.conflicts == st.conflicts
      && (q in st.queues ==> t == st) && (q !in st.queues ==> t.queues == st.queues[q := NewQueue(c)]))
  {
    hide LogOk, Recorded, Active, RetainedCells;
    if q !in st.queues {
      RecordedKeeps(st.log, Event(QueueCreated, q), c.limits.maxEvents);
      SizeAfter(st.queues, q, NewQueue(c));
      EmptyQueueAdds(st.queues, q, NewQueue(c));
      assert (|st.queues| + 1) * c.PerQueue() == |st.queues| * c.PerQueue() + c.PerQueue();
    }
  }

  lemma ActiveAfter(queues: map<QueuePath, QueueState>, q: QueuePath, x: QueueState)
    requires q in queues
    ensures |Active(queues[q := x])| == |Active(queues)|
            + (if x.conflictActive && !queues[q].conflictActive then 1 else 0)
            - (if !x.conflictActive && queues[q].conflictActive then 1 else 0)
  {
    var after := queues[q := x];
    if x.conflictActive && !queues[q].conflictActive {
      assert Active(after) == Active(queues) + {q};
    } else if !x.conflictActive && queues[q].conflictActive {
      assert Active(after) == Active(queues) - {q};
    } else {
      assert Active(after) == Active(queues);
    }
  }

  /** Pushing a record adds one cell to its queue, or none when the ring was full. */
  lemma CellsAfter(queues: map<QueuePath, QueueState>, q: QueuePath, x: QueueState, record: HistoryRecord)
    requires q in queues && queues[q].history.Valid() && queues[q].history.capacity > 0
    requires x.history == Pushed(queues[q].history, record)
    ensures x.history.Valid() && x.history.capacity == queues[q].history.capacity
    ensures |RetainedCells(queues[q := x])| + (x.history.evicted - queues[q].history.evicted) == |RetainedCells(queues)| + 1
    ensures x.history.evicted >= queues[q].history.evicted
  {
    hide RetainedCells, Pushed;
    PushedLength(queues[q].history, record);
    if |queues[q].history.items| < queues[q].history.capacity {
      CellAppears(queues, q, x);
    } else {
      CellsStay(queues, q, x);
    }
  }

  lemma PushedLength(r: Ring, record: HistoryRecord)
    requires r.Valid() && r.capacity > 0
    ensures (var t := Pushed(r, record);
      && t.Valid() && t.capacity == r.capacity
      && (if |r.items| < r.capacity then |t.items| == |r.items| + 1 && t.evicted == r.evicted
          else |t.items| == |r.items| && t.evicted == r.evicted + 1))
  {}

  lemma CellAppears(queues: map<QueuePath, QueueState>, q: QueuePath, x: QueueState)
    requires q in queues && |x.history.items| == |queues[q].history.items| + 1
    ensures |RetainedCells(queues[q := x])| == |RetainedCells(queues)| + 1
  {
    assert RetainedCells(queues[q := x]) == RetainedCells(queues) + {(q, |queues[q].history.items|)};
  }

  lemma CellsStay(queues: map<QueuePath, QueueState>, q: QueuePath, x: QueueState)
    requires q in queues && |x.history.items| == |queues[q].history.items|
    ensures RetainedCells(queues[q := x]) == RetainedCells(queues)
  {}

  /** What a sample does to its queue, as far as the store's books are concerned. */
  lemma QueueStepFacts(c: Config, q: QueueState, p: Presented, s: Sample, source: SourceRecord)
    ensures (var o := QueueStep(c, q, p, s, source);
      && o.q.history == Pushed(q.history, o.record)
      && o.evictions == (if o.q.history.evicted > q.history.evicted then o.q.history.evicted - q.history.evicted else 0)
      && o.q.conflictActive == ConflictAfter(c, q, s, source.authority) && o.q.latest == o.classified.state
      && o.record == RecordOf(c, q, s, source, Assess(c, p, s, source), o.classified.state))
  {
    hide Classify, InputOf, CounterEvents, CountersAfter, PeersAfter, Contradicting, Assess, RecordOf;
  }

  lemma TakenFacts(c: Config, st: Store, p: Presented, s: Sample)
    requires c.Valid() && QueuesOk(c, st) && |st.conflicts| <= c.limits.maxConflicts
    requires SourcesOk(st.sources, st.nextOrdinal, c.limits.maxSources)
    requires s.source in st.sources && s.queue in st.queues
    ensures (var t := Taken(c, st, p, s);
      && QueuesOk(c, t) && |t.conflicts| <= c.limits.maxConflicts
      && SourcesOk(t.sources, t.nextOrdinal, c.limits.maxSources)
      && t.queues == st.queues[s.queue := QueueStep(c, st.queues[s.queue], p, s, st.sources[s.source]).q]
      && t.sources == st.sources[s.source := st.sources[s.source].(accepted := st.sources[s.source].accepted + 1)]
      && t.tallies.presented == st.tallies.presented && t.tallies.accepted == st.tallies.accepted + 1
      && t.tallies.rejected == st.tallies.rejected && t.tallies.fenced == st.tallies.fenced
      && t.tallies.pushed == st.tallies.pushed + 1)
  {
    hide LogOk, Remembers, QueueStep, ConflictsAfter, RecordedAll, EventsOf, CountKind, Active, RetainedCells;
    var source, q := st.sources[s.source], st.queues[s.queue];
    var o := QueueStep(c, q, p, s, source);
    QueueStepFacts(c, q, p, s, source);
    RecordedAllKeeps(st.log, EventsOf(o.events, s.queue), c.limits.maxEvents);
    ActiveAfter(st.queues, s.queue, o.q);
    CellsAfter(st.queues, s.queue, o.q, o.record);
    SizeAfter(st.queues, s.queue, o.q);
    TalliesDoNotMatter(source, source.(accepted := source.accepted + 1), st.nextOrdinal);
    SourceReplaced(st.sources, st.nextOrdinal, c.limits.maxSources, s.source, source.(accepted := source.accepted + 1));
    ConflictsBounded(c, st.conflicts, q, s, source.authority);
  }

  lemma ConflictsBounded(c: Config, conflicts: seq<ConflictRecord>, q: QueueState, s: Sample, authority: Authority)
    requires |conflicts| <= c.limits.maxConflicts && c.limits.maxConflicts > 0
    ensures |ConflictsAfter(c, conflicts, q, s, authority)| <= c.limits.maxConflicts
  {
    hide Contradicting, NewConflict;
    ClosedLength(conflicts, s.queue);
  }

  lemma {:induction false} ClosedLength(conflicts: seq<ConflictRecord>, q: QueuePath)
    ensures |Closed(conflicts, q)| == |conflicts|
    decreases |conflicts|
  {
    if conflicts != [] {
      ClosedLength(conflicts[..|conflicts| - 1], q);
    }
  }

  // ---- every step keeps it ------------------------------------------------------------------------

  lemma RejectKeeps(c: Config, st: Store, q: QueuePath)
    requires LogOk(st.log, c.limits.maxEvents)
    ensures (var t := Reject(st, q);
      && LogOk(t.log, c.limits.maxEvents) && t == st.(log := t.log, tallies := st.tallies.(rejected := st.tallies.rejected + 1)))
  {
    RecordedKeeps(st.log, Event(SampleRejected, q), c.limits.maxEvents);
  }

  lemma SettledKeeps(c: Config, st: Store, outcome: Outcome, p: Presented, s: Sample)
    requires c.Valid() && QueuesOk(c, st) && |st.conflicts| <= c.limits.maxConflicts
    requires SourcesOk(st.sources, st.nextOrdinal, c.limits.maxSources) && (outcome.Admitted() ==> s.source in st.sources)
    requires st.tallies.presented == st.tallies.accepted + st.tallies.rejected + st.tallies.fenced + (if outcome.Admitted() then 1 else 0)
    requires st.tallies.pushed == st.tallies.accepted
    ensures StoreInv(c, Settled(c, st, outcome, p, s).0)
  {
    hide SourcesOk, RingsOk, WithinBudget, LogOk, Taken, Reject, WithQueue, NoRoom, Active, RetainedCells;
    if outcome.Admitted() {
      RejectKeeps(c, st, s.queue);
      if !NoRoom(c, st, s.queue) {
        WithQueueKeeps(c, st, s.queue);
        TakenFacts(c, WithQueue(c, st, s.queue), p, s);
      }
    }
  }

  /** Presenting a sample, whatever it is, keeps the books: the balance of samples, the
      source records, the rings, the budget, the conflicts and the log. */
  lemma IngestedKeeps(c: Config, st: Store, p: Presented)
    requires c.Valid() && StoreInv(c, st)
    ensures StoreInv(c, Ingested(c, st, p).0)
  {
    hide SourcesOk, RingsOk, WithinBudget, LogOk, SourceStep, Settled, Reject, Active, RetainedCells, Invalid;
    var s := Stamped(p);
    RejectKeeps(c, Presenting(st), s.queue);
    SourceStepFacts(c, Presenting(st), s);
    if !Invalid(s) {
      var (judged, outcome) := SourceStep(c, Presenting(st), s);
      SettledKeeps(c, judged, outcome, p, s);
    }
  }

  lemma OpenedHolds(c: Config)
    ensures StoreInv(c, Opened(c))
  {
    assert Active(map[]) == {} && RetainedCells(map[]) == {};
  }

  /** The books balance over every run. */
  lemma {:induction false} BooksBalance(c: Config, st: Store, ps: seq<Presented>)
    requires c.Valid() && StoreInv(c, st)
    ensures StoreInv(c, IngestedAll(c, st, ps))
    decreases |ps|
  {
    hide StoreInv, Ingested;
    if ps != [] {
      IngestedKeeps(c, st, ps[0]);
      BooksBalance(c, Ingested(c, st, ps[0]).0, ps[1..]);
    }
  }
}
