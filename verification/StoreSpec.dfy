/** The evidence store as a value, and what presenting one sample makes of it. */
module StoreSpec {
  import opened Wrappers
  import opened Bytes
  import opened Identity
  import opened Evidence
  import opened Policy
  import opened Classification
  import opened History
  import opened Admission
  import Counter

  datatype Limits = Limits(maxQueues: nat, maxSamples: nat, maxHistoryBytes: u64, maxEvents: nat, maxConflicts: nat,
                           maxSources: nat)
  {
    predicate Valid() {
      && maxQueues > 0 && 0 < maxSamples <= 0x10_0000 && maxHistoryBytes > 0 && maxEvents > 0 && maxConflicts > 0
      && maxSources > 0
    }
  }

  /** The configuration of a store; recordBytes is the size of one history record. */
  datatype Config = Config(policy: PressurePolicy, continuity: Counter.Policy, limits: Limits, recordBytes: nat) {
    predicate Valid() {
      Validate(policy) == Ok && limits.Valid() && 0 < recordBytes <= 0x10000
    }

    function PerQueue(): nat { limits.maxSamples * recordBytes }
  }

  datatype EventKind =
    | SampleRejected | SampleFenced | DuplicateReplay | SourceRegistered | SourceIncarnationChanged
    | GenerationAdvanced | SourceAuthorityChanged | QueueCreated | CounterWrap | CounterReset | CounterAmbiguous
    | CounterDiscontinuous | ConflictDetected | ConflictCleared | StateTransition | HistoryEvicted

  datatype Event = Event(kind: EventKind, queue: QueuePath)

  /** The bounded log of events, oldest first. */
  datatype EventLog = EventLog(capacity: nat, items: seq<Event>, recorded: nat, evicted: nat)

  function Recorded(l: EventLog, e: Event): EventLog {
    if l.capacity == 0 then l
    else if |l.items| < l.capacity then l.(items := l.items + [e], recorded := l.recorded + 1)
    else l.(items := l.items[1..] + [e], recorded := l.recorded + 1, evicted := l.evicted + 1)
  }

  function RecordedAll(l: EventLog, es: seq<Event>): EventLog
    decreases |es|
  {
    if es == [] then l else Recorded(RecordedAll(l, es[..|es| - 1]), es[|es| - 1])
  }

  datatype Peer = Peer(source: Name, authority: Authority, occupancy: Option<(Field, u64)>, receivedNs: int)

  datatype ConflictRecord = ConflictRecord(
    queue: QueuePath, sourceA: Name, sourceB: Name, valueA: u64, valueB: u64, difference: u64, tolerance: u64, active: bool)

  datatype QueueState = QueueState(
    counters: map<Field, Counter.State>, countersSeen: set<Field>, history: Ring, latest: Pressure,
    peers: seq<Peer>, conflictActive: bool, accepted: nat, conflicts: nat)

  datatype Tallies = Tallies(
    presented: nat, accepted: nat, rejected: nat, fenced: nat, duplicates: nat, conflictsDetected: nat,
    conflictsCleared: nat, transitions: nat, pushed: nat, evicted: nat, sourcesRegistered: nat,
    wraps: nat, resets: nat, ambiguous: nat, discontinuous: nat)

  datatype Store = Store(
    sources: map<Name, SourceRecord>, nextOrdinal: nat, queues: map<QueuePath, QueueState>,
    conflicts: seq<ConflictRecord>, log: EventLog, historyBytes: nat, tallies: Tallies)

  function Opened(c: Config): Store {
    Store(map[], 1, map[], [], EventLog(c.limits.maxEvents, [], 0, 0), 0,
          Tallies(0, 0, 0, 0, 0, 0, 0, 0, 0, 0, 0, 0, 0, 0, 0))
  }

  /** One presentation: the sample, whether it is read back from persistence, whether its
      class came from metadata, and the clock as read for stamping and for its age. */
  datatype Presented = Presented(sample: Sample, recovered: bool, derived: bool, stampNs: i64, stampWallNs: i64, nowNs: i64)

  function Stamped(p: Presented): Sample {
    if p.sample.receivedNs == 0 && p.sample.receivedWallNs == 0 then
      p.sample.(receivedNs := p.stampNs, receivedWallNs := p.stampWallNs)
    else p.sample
  }

  // ---- outcomes that end early -----------------------------------------------------------

  function Noted(st: Store, kind: EventKind, q: QueuePath): Store {
    st.(log := Recorded(st.log, Event(kind, q)))
  }

  function Reject(st: Store, q: QueuePath): Store {
    Noted(st.(tallies := st.tallies.(rejected := st.tallies.rejected + 1)), SampleRejected, q)
  }

  function Fence(st: Store, s: Sample, o: Outcome): Store {
    var fenced := st.(tallies := st.tallies.(fenced := st.tallies.fenced + 1),
                      sources := if s.source in st.sources then
                                   st.sources[s.source := st.sources[s.source].(fenced := st.sources[s.source].fenced + 1)]
                                 else st.sources);
    Noted(fenced, if o == FencedStaleSequence then DuplicateReplay else SampleFenced, s.queue)
  }

  predicate Invalid(s: Sample) {
    !s.IdentityComplete() || s.reported == {} || (s.declared != {} && s.reported - s.declared != {})
  }

  // ---- the source ---------------------------------------------------------------------------

  /** What the registry notes while judging a known source's sample. */
  function JudgeEvents(r: SourceRecord, s: Sample): seq<Event> {
    if StaleToken(r, s) then []
    else
      (if r.incarnation != s.incarnation then [Event(SourceIncarnationChanged, s.queue)] else [])
      + (if s.generation > r.generation then [Event(GenerationAdvanced, s.queue)] else [])
      + (if s.generation >= r.generation && s.authority > r.authority then [Event(SourceAuthorityChanged, s.queue)] else [])
  }

  /** The store after the source has been looked at, with the sample's fate so far. */
  function SourceStep(c: Config, st: Store, s: Sample): (r: (Store, Outcome))
    ensures r.1.Admitted() ==> s.source in r.0.sources
  {
    if s.source !in st.sources then
      if |st.sources| >= c.limits.maxSources then (Reject(st, s.queue), RejectedLimit)
      else
        var r := Advanced(Registered(s, st.nextOrdinal), s);
        (Noted(st.(sources := st.sources[s.source := r], nextOrdinal := st.nextOrdinal + 1,
                   tallies := st.tallies.(sourcesRegistered := st.tallies.sourcesRegistered + 1)),
               SourceRegistered, s.queue),
         AcceptedNewSource)
    else
      var r := st.sources[s.source];
      var v := Judge(r, s, st.nextOrdinal);
      var judged := st.(sources := st.sources[s.source := if v.outcome.Fenced() then v.record else Advanced(v.record, s)],
                        nextOrdinal := v.nextOrdinal,
                        log := RecordedAll(st.log, JudgeEvents(r, s)),
                        tallies := if v.outcome == FencedStaleSequence then
                                     st.tallies.(duplicates := st.tallies.duplicates + 1)
                                   else st.tallies);
      (if v.outcome.Fenced() then Fence(judged, s, v.outcome) else judged, v.outcome)
  }

  // ---- the queue: evidence --------------------------------------------------------------------

  /** Recovered evidence never looks current. */
  function Assess(c: Config, p: Presented, s: Sample, source: SourceRecord): Assessment {
    var age := p.nowNs - s.receivedNs;
    var freshness := AssessFreshness(age, c.policy.freshness);
    var flags :=
      (if age < 0 then {OrderAnomaly} else {})
      + (if s.observed.domain == [] then {ClockDomainUnknown}
         else if source.clockDomain != [] && source.clockDomain != s.observed.domain then {ClockDomainMismatch} else {})
      + (if p.derived then {ClassResolvedFromMetadata} else {})
      + (if p.recovered then {RecoveredFlag} else {});
    Assessment(
      if p.recovered && (freshness == Evidence.Fresh || freshness == FreshnessUnknown) then Stale else freshness,
      if p.recovered || c.policy.requiredFields - s.reported != {} then Incomplete else Complete,
      if p.recovered then RecoveredFromPersistence else if p.derived then DerivedFromMetadata else FromSource,
      source.authority, flags, if age < 0 then 0 else age)
  }

  function ReadingOf(s: Sample, f: Field): Counter.Reading {
    Counter.Reading(s.RawValue(f), s.observed, s.receivedNs)
  }

  function CountersReported(s: Sample): set<Field> {
    set f | f in s.reported && IsCounter(f)
  }

  function CounterBefore(q: QueueState, f: Field): Counter.State {
    if f in q.counters then q.counters[f] else Counter.Fresh()
  }

  function UpdateOf(c: Config, q: QueueState, s: Sample, f: Field): (Counter.State, Counter.Update) {
    Counter.Observed(CounterBefore(q, f), ReadingOf(s, f), c.continuity)
  }

  /** The counters after the sample; those it does not report stay as they are. */
  function CountersAfter(c: Config, q: QueueState, s: Sample): map<Field, Counter.State> {
    q.counters + map f | f in CountersReported(s) :: UpdateOf(c, q, s, f).0
  }

  function DeltasOf(c: Config, q: QueueState, s: Sample): map<Field, Delta> {
    map f | f in CountersReported(s) ::
      Delta(UpdateOf(c, q, s, f).1.known, UpdateOf(c, q, s, f).1.delta)
  }

  function ContinuityEvent(k: Counter.Continuity): Option<EventKind> {
    match k
    case Wrapped => Some(CounterWrap)
    case Reset => Some(CounterReset)
    case AmbiguousWrap => Some(CounterAmbiguous)
    case Discontinuous => Some(CounterDiscontinuous)
    case _ => None
  }

  /** The kinds of counter events, field by field from f on. */
  function CounterEvents(c: Config, q: QueueState, s: Sample, f: nat): seq<EventKind>
    requires f <= FIELD_COUNT
    decreases FIELD_COUNT - f
  {
    if f == FIELD_COUNT then []
    else
      var rest := CounterEvents(c, q, s, f + 1);
      if f in CountersReported(s) && ContinuityEvent(UpdateOf(c, q, s, f).1.continuity).Some? then
        [ContinuityEvent(UpdateOf(c, q, s, f).1.continuity).value] + rest
      else rest
  }

  // ---- the queue: conflicts --------------------------------------------------------------------

  function OccupancyOf(s: Sample): Option<(Field, u64)> {
    if OCCUPANCY_CELLS in s.reported then Some((OCCUPANCY_CELLS, s.RawValue(OCCUPANCY_CELLS)))
    else if OCCUPANCY_BYTES in s.reported then Some((OCCUPANCY_BYTES, s.RawValue(OCCUPANCY_BYTES)))
    else None
  }

  function Difference(a: u64, b: u64): u64 {
    if a > b then a - b else b - a
  }

  function Tolerance(p: ConflictPolicy, a: u64, b: u64): u64 {
    var relative := PermilleOf(if a > b then a else b, p.relativePermille);
    if relative.Success? && relative.value > p.absoluteTolerance then relative.value else p.absoluteTolerance
  }

  /** Whether a peer's last report contradicts a sample. */
  predicate Contradicts(c: Config, peer: Peer, s: Sample, authority: Authority) {
    && peer.source != s.source && peer.occupancy.Some? && OccupancyOf(s).Some?
    && peer.occupancy.value.0 == OccupancyOf(s).value.0
    && s.receivedNs - peer.receivedNs <= c.policy.conflict.windowNs && peer.receivedNs <= s.receivedNs
    && peer.authority == authority
    && Difference(OccupancyOf(s).value.1, peer.occupancy.value.1)
       > Tolerance(c.policy.conflict, OccupancyOf(s).value.1, peer.occupancy.value.1)
  }

  /** The first peer that does. */
  function Contradicting(c: Config, peers: seq<Peer>, s: Sample, authority: Authority): (r: Option<Peer>)
    ensures r.Some? ==> r.value in peers && Contradicts(c, r.value, s, authority)
    ensures r.None? ==> forall p :: p in peers ==> !Contradicts(c, p, s, authority)
  {
    if peers == [] then None
    else if Contradicts(c, peers[0], s, authority) then Some(peers[0])
    else Contradicting(c, peers[1..], s, authority)
  }

  predicate ConflictAfter(c: Config, q: QueueState, s: Sample, authority: Authority) {
    if c.policy.conflict.enabled then Contradicting(c, q.peers, s, authority).Some? else q.conflictActive
  }

  function NewConflict(c: Config, s: Sample, peer: Peer): ConflictRecord
    requires peer.occupancy.Some? && OccupancyOf(s).Some?
  {
    var a, b := OccupancyOf(s).value.1, peer.occupancy.value.1;
    ConflictRecord(s.queue, s.source, peer.source, a, b, Difference(a, b), Tolerance(c.policy.conflict, a, b), true)
  }

  /** The latest active record of a queue is closed. */
  function Closed(conflicts: seq<ConflictRecord>, q: QueuePath): seq<ConflictRecord>
    decreases |conflicts|
  {
    if conflicts == [] then []
    else
      var last := conflicts[|conflicts| - 1];
      if last.queue == q && last.active then conflicts[..|conflicts| - 1] + [last.(active := false)]
      else Closed(conflicts[..|conflicts| - 1], q) + [last]
  }

  function ConflictsAfter(c: Config, conflicts: seq<ConflictRecord>, q: QueueState, s: Sample, authority: Authority): seq<ConflictRecord> {
    var now := ConflictAfter(c, q, s, authority);
    if now && !q.conflictActive && Contradicting(c, q.peers, s, authority).Some? then
      (if |conflicts| >= c.limits.maxConflicts && conflicts != [] then conflicts[1..] else conflicts)
      + [NewConflict(c, s, Contradicting(c, q.peers, s, authority).value)]
    else if !now && q.conflictActive then Closed(conflicts, s.queue)
    else conflicts
  }

  // ---- the queue: classification ------------------------------------------------------------------

  function Accumulated(sum: Delta, d: Delta): Delta {
    if !d.known then sum
    else if !sum.known then Delta(true, d.delta)
    else Delta(true, if sum.delta + d.delta > U64_MAX then U64_MAX else sum.delta + d.delta)
  }

  /** What a record contributes to a sum: nothing unless it reported the counter. */
  function Contribution(x: HistoryRecord, f: Field): Delta {
    if f in x.reported then x.DeltaOf(f) else Delta(false, 0)
  }

  /** Newest first. */
  function SumOver(xs: seq<HistoryRecord>, f: Field): Delta {
    if xs == [] then Delta(false, 0) else Accumulated(SumOver(xs[1..], f), Contribution(xs[0], f))
  }

  /** The advance of a counter over the window, up to and including the sample. */
  function WindowSum(c: Config, items: seq<HistoryRecord>, s: Sample, deltas: map<Field, Delta>, f: Field): Delta {
    Accumulated(SumOver(SinceNewest(items, s.receivedNs - c.policy.evaluationWindowNs), f),
                if f in deltas then deltas[f] else Delta(false, 0))
  }

  function InputOf(c: Config, q: QueueState, s: Sample, a: Assessment, conflict: bool): Input {
    var items, deltas := q.history.items, DeltasOf(c, q, s);
    Input(s.queue, a, s.reported,
          s.ValueOf(OCCUPANCY_CELLS), s.ValueOf(OCCUPANCY_BYTES), s.ValueOf(QUEUE_DEPTH_PACKETS),
          s.ValueOf(DYNAMIC_THRESHOLD_CELLS), s.ValueOf(STATIC_THRESHOLD_CELLS), s.ValueOf(MAX_DEPTH_PACKETS),
          WindowSum(c, items, s, deltas, DROP_PACKETS), WindowSum(c, items, s, deltas, MARK_PACKETS),
          WindowSum(c, items, s, deltas, PAUSE_FRAMES), WindowSum(c, items, s, deltas, PAUSE_DURATION_NANOS),
          WindowSum(c, items, s, deltas, ENQUEUE_PACKETS), WindowSum(c, items, s, deltas, DEQUEUE_PACKETS),
          conflict)
  }

  function RecordOf(c: Config, q: QueueState, s: Sample, source: SourceRecord, a: Assessment, state: Pressure): HistoryRecord {
    HistoryRecord(s.receivedNs, s.source, s.generation, source.ordinal, s.sequence, source.authority, s.reported,
                  a.freshness, a.quality, a.flags, a.ageNs, s.values, DeltasOf(c, q, s), state)
  }

  /** The peer's entry is replaced in place, or appended; a full table forgets its oldest. */
  function PeersAfter(c: Config, peers: seq<Peer>, p: Peer): seq<Peer> {
    var i := PlaceOf(peers, p.source);
    if i < |peers| then peers[i := p]
    else (if |peers| >= c.limits.maxSources && peers != [] then peers[1..] else peers) + [p]
  }

  function PlaceOf(peers: seq<Peer>, source: Name): (i: nat)
    ensures i <= |peers| && (i < |peers| ==> peers[i].source == source)
    ensures forall j :: 0 <= j < i ==> peers[j].source != source
  {
    if peers == [] || peers[0].source == source then 0 else 1 + PlaceOf(peers[1..], source)
  }

  // ---- the queue: all of it ---------------------------------------------------------------------------

  /** What a sample makes of its queue, and what the store is told about it. */
  datatype QueueOutcome = QueueOutcome(q: QueueState, classified: Classified, record: HistoryRecord, events: seq<EventKind>,
                                       changed: bool, evictions: nat)

  function QueueStep(c: Config, q: QueueState, p: Presented, s: Sample, source: SourceRecord): QueueOutcome {
    var a := Assess(c, p, s, source);
    var conflict := ConflictAfter(c, q, s, source.authority);
    var classified := Classify(c.policy, InputOf(c, q, s, a, conflict));
    var record := RecordOf(c, q, s, source, a, classified.state);
    var history := Pushed(q.history, record);
    var changed := q.history.items != [] && q.latest != classified.state;
    var evictions := if history.evicted > q.history.evicted then history.evicted - q.history.evicted else 0;
    QueueOutcome(
      QueueState(CountersAfter(c, q, s), q.countersSeen + CountersReported(s), history, classified.state,
                 PeersAfter(c, q.peers, Peer(s.source, source.authority, OccupancyOf(s), s.receivedNs)),
                 conflict, q.accepted + 1,
                 if conflict && !q.conflictActive then q.conflicts + 1 else q.conflicts),
      classified, record,
      CounterEvents(c, q, s, 0)
      + (if conflict && !q.conflictActive then [ConflictDetected]
         else if !conflict && q.conflictActive then [ConflictCleared] else [])
      + (if changed then [StateTransition] else [])
      + (if evictions > 0 then [HistoryEvicted] else []),
      changed, evictions)
  }

  function NewQueue(c: Config): QueueState {
    QueueState(map[], {}, Reserved(c.limits.maxSamples), Unknown, [], false, 0, 0)
  }

  function CountKind(kinds: seq<EventKind>, k: EventKind): nat {
    if kinds == [] then 0 else (if kinds[0] == k then 1 else 0) + CountKind(kinds[1..], k)
  }

  function EventsOf(kinds: seq<EventKind>, q: QueuePath): seq<Event> {
    seq(|kinds|, i requires 0 <= i < |kinds| => Event(kinds[i], q))
  }

  /** The store after a sample has been taken into its queue. */
  function Taken(c: Config, st: Store, p: Presented, s: Sample): Store
    requires s.source in st.sources && s.queue in st.queues
  {
    var source, q := st.sources[s.source], st.queues[s.queue];
    var o := QueueStep(c, q, p, s, source);
    st.(queues := st.queues[s.queue := o.q],
        conflicts := ConflictsAfter(c, st.conflicts, q, s, source.authority),
        sources := st.sources[s.source := source.(accepted := source.accepted + 1)],
        log := RecordedAll(st.log, EventsOf(o.events, s.queue)),
        tallies := TalliesAfter(st.tallies, o.events, o.changed, o.evictions, q.conflictActive, o.q.conflictActive))
  }

  function TalliesAfter(t: Tallies, kinds: seq<EventKind>, changed: bool, evictions: nat, before: bool, active: bool): Tallies {
    t.(accepted := t.accepted + 1, pushed := t.pushed + 1, evicted := t.evicted + evictions,
       transitions := t.transitions + (if changed then 1 else 0),
       conflictsDetected := t.conflictsDetected + (if active && !before then 1 else 0),
       conflictsCleared := t.conflictsCleared + (if !active && before then 1 else 0),
       wraps := t.wraps + CountKind(kinds, CounterWrap),
       resets := t.resets + CountKind(kinds, CounterReset),
       ambiguous := t.ambiguous + CountKind(kinds, CounterAmbiguous),
       discontinuous := t.discontinuous + CountKind(kinds, CounterDiscontinuous))
  }

  /** A further queue would exceed the number or the byte budget. */
  predicate NoRoom(c: Config, st: Store, q: QueuePath) {
    q !in st.queues
    && (|st.queues| >= c.limits.maxQueues || st.historyBytes + c.PerQueue() > c.limits.maxHistoryBytes)
  }

  function WithQueue(c: Config, st: Store, q: QueuePath): (r: Store)
    ensures q in r.queues && r.sources == st.sources
  {
    if q in st.queues then st
    else
      Noted(st.(queues := st.queues[q := NewQueue(c)], historyBytes := st.historyBytes + c.PerQueue()), QueueCreated, q)
  }

  function Presenting(st: Store): Store {
    st.(tallies := st.tallies.(presented := st.tallies.presented + 1))
  }

  /** What happens to a sample once its source has been looked at. */
  function Settled(c: Config, st: Store, outcome: Outcome, p: Presented, s: Sample): (Store, Outcome)
    requires outcome.Admitted() ==> s.source in st.sources
  {
    if !outcome.Admitted() then (st, outcome)
    else if NoRoom(c, st, s.queue) then (Reject(st, s.queue), RejectedLimit)
    else (Taken(c, WithQueue(c, st, s.queue), p, s), outcome)
  }

  /** One sample presented to the store. */
  function Ingested(c: Config, st: Store, p: Presented): (Store, Outcome) {
    var s := Stamped(p);
    if Invalid(s) then (Reject(Presenting(st), s.queue), RejectedInvalid)
    else
      var (judged, outcome) := SourceStep(c, Presenting(st), s);
      Settled(c, judged, outcome, p, s)
  }

  function IngestedAll(c: Config, st: Store, ps: seq<Presented>): Store
    decreases |ps|
  {
    if ps == [] then st else IngestedAll(c, Ingested(c, st, ps[0]).0, ps[1..])
  }
}
