/** The ordered parallel applier as a state machine over its lock-protected
    regions: submissions, workers that decode outside the lock and apply in ticket
    order under it, start, stop, and callers waiting for the queue to drain.

    The store is a parameter: whatever decoding, table admission and sample
    admission do, the order in which they are done is the subject here. */
module Applier {
  import opened Wrappers
  import opened Bytes

  // ---- what is applied ---------------------------------------------------------------

  type Store(!new)
  type Table(!new)
  type Sample(!new)

  datatype Decoded = Decoded(ok: bool, tables: seq<Table>, samples: seq<Sample>)

  datatype Backend = Backend(
    decode: bytes -> Decoded,
    admitTable: (Store, Table) -> (Store, bool),
    admitSample: (Store, Sample) -> Store)

  /** Tables go in order; the first refused one ends the document. */
  function AdmitTables(b: Backend, store: Store, tables: seq<Table>): (Store, bool)
    decreases |tables|
  {
    if tables == [] then (store, true)
    else
      var (next, ok) := b.admitTable(store, tables[0]);
      if ok then AdmitTables(b, next, tables[1..]) else (next, false)
  }

  function AdmitSamples(b: Backend, store: Store, samples: seq<Sample>): Store
    decreases |samples|
  {
    if samples == [] then store
    else AdmitSamples(b, b.admitSample(store, samples[0]), samples[1..])
  }

  /** A decoded document, of which at most the first `upTo` samples are reached. */
  function ApplyDocument(b: Backend, store: Store, d: Decoded, upTo: Option<nat>): Store {
    if !d.ok then store
    else
      var (next, ok) := AdmitTables(b, store, d.tables);
      if !ok then next else AdmitSamples(b, next, Reached(d.samples, upTo))
  }

  function Reached(samples: seq<Sample>, upTo: Option<nat>): seq<Sample> {
    if upTo.Some? && upTo.value < |samples| then samples[..upTo.value] else samples
  }

  /** What one caller that decodes and applies document after document computes. */
  function Sequential(b: Backend, store: Store, payloads: seq<bytes>): Store
    decreases |payloads|
  {
    if payloads == [] then store
    else
      var last := |payloads| - 1;
      ApplyDocument(b, Sequential(b, store, payloads[..last]), b.decode(payloads[last]), None)
  }

  // ---- the state ------------------------------------------------------------------------

  datatype Phase = Created | Running | Stopping | Stopped

  /** Where start and stop, which exclude each other, have got to. */
  datatype Lifecycle = Free | Recovering | StopBegun | Raised | Joining

  datatype Pc = Ready | Waiting | Decoding(ticket: nat) | Exited

  datatype Document = Document(
    payload: bytes, inFlight: bool, decoded: bool, applied: bool, result: Decoded)

  /** A document as it was applied: whole, or reached only up to some sample. */
  datatype Entry = Entry(ticket: nat, payload: bytes, upTo: Option<nat>)

  datatype Config = Config(threads: nat, maxPending: nat, maxPayload: nat)

  /** What the specification keeps track of beside the runtime's own fields: where
      start and stop have got to, the callers asleep in drain and those told to look
      again, the store when recovery ended and the ticket after which `log` begins,
      the payloads accepted in this session by ticket, the documents applied since
      `base`, and totals over all sessions. */
  datatype Book = Book(
    lifecycle: Lifecycle, blocked: set<nat>, rechecking: set<nat>,
    base: Store, since: nat, accepted: seq<bytes>, log: seq<Entry>,
    admitted: nat, lost: nat, refusedInline: nat, recoveryFailed: bool, missedWake: bool)

  datatype State = State(
    phase: Phase, raised: bool,
    pending: map<nat, Document>, nextTicket: nat, nextApply: nat,
    queuedSamples: nat, queuedBatches: nat, inFlight: nat,
    applied: nat, dropped: nat, failures: nat,
    workers: seq<Pc>, store: Store, book: Book)

  // ---- conditions ------------------------------------------------------------------------

  predicate CanApply(pending: map<nat, Document>, ticket: nat) {
    ticket in pending && pending[ticket].decoded
  }

  predicate Undecoded(d: Document) {
    !d.decoded && !d.inFlight
  }

  predicate CanDecode(pending: map<nat, Document>) {
    exists t :: t in pending && Undecoded(pending[t])
  }

  /** What a worker waits for. */
  predicate WorkerMayRun(s: State) {
    s.raised || CanApply(s.pending, s.nextApply) || CanDecode(s.pending)
  }

  /** What a drain call waits for. */
  predicate Drained(s: State) {
    s.pending == map[] && s.inFlight == 0
  }

  /** The undecoded document with the lowest ticket. */
  ghost predicate IsNextToDecode(pending: map<nat, Document>, t: nat) {
    && t in pending && Undecoded(pending[t])
    && forall u :: u in pending && u < t ==> !Undecoded(pending[u])
  }

  function Woken(pc: Pc): Pc {
    if pc == Waiting then Ready else pc
  }

  function WakeWorkers(ws: seq<Pc>): (r: seq<Pc>)
    ensures |r| == |ws| && forall i :: 0 <= i < |ws| ==> r[i] == Woken(ws[i])
  {
    seq(|ws|, i requires 0 <= i < |ws| => Woken(ws[i]))
  }

  /** Callers of drain are told to look again. */
  function Told(k: Book): Book {
    k.(blocked := {}, rechecking := k.rechecking + k.blocked, missedWake := false)
  }

  /** Both condition variables are signalled. */
  function WakeAll(s: State): State {
    s.(workers := WakeWorkers(s.workers), book := Told(s.book))
  }

  function AtLifecycle(s: State, l: Lifecycle): State {
    s.(book := s.book.(lifecycle := l))
  }

  // ---- steps ------------------------------------------------------------------------------

  datatype Step =
    | Submit(payload: bytes)
    | SubmitCut(payload: bytes, upTo: nat)
    | Wait(w: nat)
    | Spurious(w: nat)
    | Begin(w: nat, ticket: nat)
    | Finish(w: nat)
    | Apply(w: nat)
    | ApplyCut(w: nat, upTo: nat)
    | Exit(w: nat)
    | StartBegin
    | StartEnd(recovered: bool, store: Store)
    | StopBegin
    | StopRaise
    | StopNotify
    | StopJoin
    | Drain(caller: nat)
    | Recheck(caller: nat)

  function SubmitStatus(c: Config, s: State, payload: bytes): Status {
    if |payload| > c.maxPayload then Failure(LimitExceeded)
    else if s.phase != Running then Failure(NotRunning)
    else if c.threads > 0 && |s.pending| >= c.maxPending then Failure(Busy)
    else Ok
  }

  function Admitted(k: Book, payload: bytes): Book {
    k.(accepted := k.accepted + [payload], admitted := k.admitted + 1)
  }

  function Logged(k: Book, e: Entry): Book {
    k.(log := k.log + [e])
  }

  function Enqueued(s: State, payload: bytes): State {
    s.(pending := s.pending[s.nextTicket := Document(payload, false, false, false, Decoded(true, [], []))],
       nextTicket := s.nextTicket + 1, queuedBatches := s.queuedBatches + 1,
       workers := WakeWorkers(s.workers), book := Admitted(s.book, payload))
  }

  /** Without workers the submitter decodes and applies under the lock. */
  function Inline(b: Backend, s: State, payload: bytes, upTo: Option<nat>): State {
    var d := b.decode(payload);
    var k := Logged(Admitted(s.book, payload), Entry(s.nextTicket, payload, upTo));
    var t := s.(nextTicket := s.nextTicket + 1, book := k);
    if d.ok then t.(store := ApplyDocument(b, s.store, d, upTo), applied := s.applied + 1)
    else t.(failures := s.failures + 1, book := k.(refusedInline := k.refusedInline + 1))
  }

  function Applied(b: Backend, s: State, upTo: Option<nat>): State
    requires CanApply(s.pending, s.nextApply)
  {
    var d := s.pending[s.nextApply];
    WakeAll(s.(
      store := ApplyDocument(b, s.store, d.result, upTo),
      failures := if d.result.ok then s.failures else s.failures + 1,
      applied := s.applied + 1,
      pending := s.pending - {s.nextApply},
      nextApply := s.nextApply + 1,
      queuedBatches := if s.queuedBatches > 0 then s.queuedBatches - 1 else 0,
      book := Logged(s.book, Entry(s.nextApply, d.payload, upTo))))
  }

  function Begun(s: State, w: nat, t: nat): State
    requires w < |s.workers| && t in s.pending
  {
    s.(pending := s.pending[t := s.pending[t].(inFlight := true)], inFlight := s.inFlight + 1,
       workers := s.workers[w := Decoding(t)])
  }

  function Finished(b: Backend, s: State, w: nat): State
    requires w < |s.workers| && s.workers[w].Decoding? && s.inFlight > 0
  {
    var t := s.workers[w].ticket;
    var r := s.(inFlight := s.inFlight - 1, workers := s.workers[w := Ready]);
    WakeAll(
      if t !in s.pending then r
      else
        var d := s.pending[t].(result := b.decode(s.pending[t].payload), decoded := true, inFlight := false);
        r.(pending := s.pending[t := d], queuedSamples := s.queuedSamples + |d.result.samples|))
  }

  /** Everything queued is forgotten; nothing counts it and nobody is told. */
  function Opened(s: State): State {
    s.(phase := Running, raised := false, pending := map[], nextTicket := 1, nextApply := 1,
       queuedSamples := 0, queuedBatches := 0, inFlight := 0,
       book := Forgotten(s.book, |s.pending|, Drained(s), s.store))
  }

  function Forgotten(k: Book, queued: nat, drained: bool, store: Store): Book {
    k.(lifecycle := Recovering, accepted := [], log := [], base := store, since := 1,
       lost := k.lost + queued, missedWake := k.missedWake || (k.blocked != {} && !drained))
  }

  function Rebased(k: Book, store: Store, since: nat, ok: bool): Book {
    k.(lifecycle := Free, base := store, log := [], since := since, recoveryFailed := k.recoveryFailed || !ok)
  }

  function Recovered(c: Config, s: State, ok: bool, store: Store): State {
    var t := s.(store := store, book := Rebased(s.book, store, if c.threads == 0 then s.nextTicket else s.nextApply, ok));
    if ok then t.(workers := seq(c.threads, _ => Ready)) else t.(phase := Created)
  }

  function Unapplied(pending: map<nat, Document>): set<nat> {
    set t | t in pending && !pending[t].applied
  }

  function Discarded(s: State): State {
    WakeAll(s.(workers := [], dropped := s.dropped + |Unapplied(s.pending)|, pending := map[], inFlight := 0,
               queuedSamples := 0, queuedBatches := 0, phase := Stopped, book := s.book.(lifecycle := Free)))
  }

  ghost predicate Enabled(c: Config, s: State, e: Step) {
    match e
    case Submit(p) => SubmitStatus(c, s, p) == Ok
    case SubmitCut(p, k) => c.threads == 0 && SubmitStatus(c, s, p) == Ok && s.book.lifecycle == Free
    case Wait(w) => w < |s.workers| && s.workers[w] == Ready && !WorkerMayRun(s)
    case Spurious(w) => w < |s.workers| && s.workers[w] == Waiting
    case Begin(w, t) =>
      w < |s.workers| && s.workers[w] == Ready && !s.raised && !CanApply(s.pending, s.nextApply) && IsNextToDecode(s.pending, t)
    case Finish(w) => w < |s.workers| && s.workers[w].Decoding? && s.inFlight > 0
    case Apply(w) => w < |s.workers| && s.workers[w] == Ready && !s.raised && CanApply(s.pending, s.nextApply)
    case ApplyCut(w, k) => w < |s.workers| && s.workers[w] == Ready && s.book.lifecycle == StopBegun && CanApply(s.pending, s.nextApply)
    case Exit(w) => w < |s.workers| && s.workers[w] == Ready && s.raised
    case StartBegin => s.book.lifecycle == Free && (s.phase == Created || s.phase == Stopped)
    case StartEnd(ok, store) => s.book.lifecycle == Recovering
    case StopBegin => s.book.lifecycle == Free
    case StopRaise => s.book.lifecycle == StopBegun
    case StopNotify => s.book.lifecycle == Raised
    case StopJoin => s.book.lifecycle == Joining && forall w :: 0 <= w < |s.workers| ==> s.workers[w] == Exited
    case Drain(id) => id !in s.book.blocked && id !in s.book.rechecking
    case Recheck(id) => id in s.book.rechecking
  }

  ghost function Next(b: Backend, c: Config, s: State, e: Step): State
    requires Enabled(c, s, e)
  {
    match e
    case Submit(p) => if c.threads == 0 then Inline(b, s, p, None) else Enqueued(s, p)
    case SubmitCut(p, k) => AtLifecycle(Inline(b, s, p, Some(k)).(phase := Stopping, raised := true), Raised)
    case Wait(w) => s.(workers := s.workers[w := Waiting])
    case Spurious(w) => s.(workers := s.workers[w := Ready])
    case Begin(w, t) => Begun(s, w, t)
    case Finish(w) => Finished(b, s, w)
    case Apply(w) => Applied(b, s, None)
    case ApplyCut(w, k) => AtLifecycle(Applied(b, s, Some(k)).(raised := true), Raised)
    case Exit(w) => s.(workers := s.workers[w := Exited])
    case StartBegin => Opened(s)
    case StartEnd(ok, store) => Recovered(c, s, ok, store)
    case StopBegin =>
      if s.phase == Created || s.phase == Stopped then s.(phase := Stopped)
      else AtLifecycle(s.(phase := Stopping), StopBegun)
    case StopRaise => AtLifecycle(s.(raised := true), Raised)
    case StopNotify => AtLifecycle(s.(workers := WakeWorkers(s.workers)), Joining)
    case StopJoin => Discarded(s)
    case Drain(id) => Looked(s, id)
    case Recheck(id) => Looked(s, id)
  }

  /** A caller of drain looks, and leaves or goes to sleep. */
  function Looked(s: State, caller: nat): State {
    var k := s.book.(rechecking := s.book.rechecking - {caller});
    s.(book := if Drained(s) then k else k.(blocked := k.blocked + {caller}))
  }

  function Fresh(store: Store): State {
    State(Created, false, map[], 1, 1, 0, 0, 0, 0, 0, 0, [], store,
          Book(Free, {}, {}, store, 1, [], [], 0, 0, 0, false, false))
  }

  /** A sequence of steps, each enabled where it is taken. */
  ghost predicate IsRun(b: Backend, c: Config, s: State, steps: seq<Step>)
    decreases |steps|
  {
    steps != [] ==> Enabled(c, s, steps[0]) && IsRun(b, c, Next(b, c, s, steps[0]), steps[1..])
  }

  ghost function After(b: Backend, c: Config, s: State, steps: seq<Step>): State
    requires IsRun(b, c, s, steps)
    decreases |steps|
  {
    if steps == [] then s else After(b, c, Next(b, c, s, steps[0]), steps[1..])
  }
}
