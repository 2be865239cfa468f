/** What every step of the applier keeps, and what follows for whole runs. */
module ApplierProofs {
  import opened Wrappers
  import opened Bytes
  import opened Applier

  // ---- the invariant, in parts --------------------------------------------------------

  /** A queued document is what was submitted; once decoded it holds its decoding. */
  ghost predicate Genuine(b: Backend, d: Document, payload: bytes) {
    && d.payload == payload && !d.applied && !(d.inFlight && d.decoded)
    && (d.decoded ==> d.result == b.decode(payload))
  }

  ghost predicate Consecutive(pending: map<nat, Document>, from: nat, to: nat) {
    forall t :: from <= t < to ==> t in pending
  }

  ghost predicate Queued(b: Backend, pending: map<nat, Document>, accepted: seq<bytes>, from: nat, to: nat) {
    && 1 <= from <= to && |accepted| == to - 1
    && forall t :: t in pending ==> from <= t < to && Genuine(b, pending[t], accepted[t - 1])
  }

  /** Queued documents are the tickets from the next to apply up to the next to give out;
      only a finished stop leaves a gap between the two with nothing queued. */
  ghost predicate Queue(b: Backend, c: Config, s: State) {
    && Queued(b, s.pending, s.book.accepted, s.nextApply, s.nextTicket)
    && (c.threads > 0 && (s.phase != Stopped || s.pending != map[]) ==> Consecutive(s.pending, s.nextApply, s.nextTicket))
    && (c.threads == 0 ==> s.pending == map[] && s.nextApply == 1)
    && s.queuedBatches == |s.pending|
  }

  function Flying(pending: map<nat, Document>): set<nat> {
    set t | t in pending && pending[t].inFlight
  }

  ghost predicate DecodedBy(workers: seq<Pc>, t: nat) {
    exists w :: 0 <= w < |workers| && workers[w] == Decoding(t)
  }

  /** Documents in flight and workers decoding them correspond one to one. */
  ghost predicate Flights(pending: map<nat, Document>, workers: seq<Pc>, inFlight: nat) {
    && (forall w :: 0 <= w < |workers| && workers[w].Decoding? ==> workers[w].ticket in Flying(pending))
    && (forall v, w :: 0 <= v < w < |workers| && workers[v].Decoding? ==> workers[v] != workers[w])
    && (forall t :: t in Flying(pending) ==> DecodedBy(workers, t))
    && inFlight == |Flying(pending)|
  }

  ghost predicate NoneExited(workers: seq<Pc>) {
    forall w :: 0 <= w < |workers| ==> workers[w] != Exited
  }

  ghost predicate Coherent(threads: nat, phase: Phase, lifecycle: Lifecycle, raised: bool, workers: seq<Pc>) {
    && (!raised ==> NoneExited(workers))
    && (phase == Created ==> !raised)
    && match lifecycle
       case Free =>
         if phase == Running then !raised && |workers| == threads else phase != Stopping && workers == []
       case Recovering => phase == Running && !raised && workers == []
       case StopBegun => phase == Stopping && !raised && |workers| == threads
       case Raised => phase == Stopping && raised && |workers| == threads
       case Joining => phase == Stopping && raised && |workers| == threads
  }

  /** What applying the logged documents one after the other makes of a store. */
  function Replay(b: Backend, store: Store, log: seq<Entry>): Store
    decreases |log|
  {
    if log == [] then store
    else
      var last := log[|log| - 1];
      ApplyDocument(b, Replay(b, store, log[..|log| - 1]), b.decode(last.payload), last.upTo)
  }

  /** The first ticket that has not been applied. */
  function Unreached(c: Config, s: State): nat {
    if c.threads == 0 then s.nextTicket else s.nextApply
  }

  ghost predicate InOrder(log: seq<Entry>, since: nat, accepted: seq<bytes>, raised: bool) {
    forall i :: 0 <= i < |log| ==>
      && log[i].ticket == since + i && 1 <= log[i].ticket <= |accepted| && log[i].payload == accepted[log[i].ticket - 1]
      && (log[i].upTo.Some? ==> raised && i == |log| - 1)
  }

  /** Documents were applied in ticket order, none skipped or repeated, and whole,
      except that the very last may have been cut short by stop. */
  ghost predicate Ledger(b: Backend, c: Config, s: State) {
    && 1 <= s.book.since && |s.book.log| == Unreached(c, s) - s.book.since
    && s.store == Replay(b, s.book.base, s.book.log)
    && InOrder(s.book.log, s.book.since, s.book.accepted, s.raised)
  }

  /** Every submission ever admitted is applied, dropped, still queued, refused by a
      submitter that decodes itself, or lost to a start after a failed recovery. */
  ghost predicate Totals(c: Config, s: State) {
    && s.book.admitted == s.applied + s.dropped + |s.pending| + s.book.refusedInline + s.book.lost
    && (c.threads > 0 ==> s.book.refusedInline == 0)
    && (!s.book.recoveryFailed ==> s.book.lost == 0 && (s.phase == Created || s.phase == Stopped ==> s.pending == map[]))
  }

  ghost predicate SomeWaiting(workers: seq<Pc>) {
    exists w :: 0 <= w < |workers| && workers[w] == Waiting
  }

  /** Nobody sleeps through what it waits for, but for a moment inside stop. */
  ghost predicate Awake(s: State) {
    && (SomeWaiting(s.workers) && WorkerMayRun(s) ==> s.book.lifecycle == Raised)
    && (s.book.blocked != {} && Drained(s) ==> s.book.missedWake)
  }

  ghost predicate Inv(b: Backend, c: Config, s: State) {
    && Queue(b, c, s) && Flights(s.pending, s.workers, s.inFlight)
    && Coherent(c.threads, s.phase, s.book.lifecycle, s.raised, s.workers)
    && Ledger(b, c, s) && Totals(c, s) && Awake(s)
  }

  // ---- small facts -------------------------------------------------------------------------

  lemma WakingKeepsFlights(pending: map<nat, Document>, workers: seq<Pc>, inFlight: nat)
    requires Flights(pending, workers, inFlight)
    ensures Flights(pending, WakeWorkers(workers), inFlight)
    ensures !SomeWaiting(WakeWorkers(workers))
    ensures NoneExited(workers) ==> NoneExited(WakeWorkers(workers))
  {
    var ws := WakeWorkers(workers);
    forall t | t in Flying(pending)
      ensures DecodedBy(ws, t)
    {
      var w :| 0 <= w < |workers| && workers[w] == Decoding(t);
      assert ws[w] == Decoding(t);
    }
  }

  /** A worker that is not decoding may become anything else that is not decoding. */
  lemma IdleKeepsFlights(pending: map<nat, Document>, workers: seq<Pc>, inFlight: nat, w: nat, pc: Pc)
    requires Flights(pending, workers, inFlight) && w < |workers|
    requires !workers[w].Decoding? && !pc.Decoding?
    ensures Flights(pending, workers[w := pc], inFlight)
  {
    var ws := workers[w := pc];
    forall t | t in Flying(pending)
      ensures DecodedBy(ws, t)
    {
      var v :| 0 <= v < |workers| && workers[v] == Decoding(t);
      assert ws[v] == Decoding(t);
    }
  }

  /** Steps that move one worker among the places where it decodes nothing. */
  lemma WorkerMoves(b: Backend, c: Config, s: State, e: Step)
    requires Inv(b, c, s) && Enabled(c, s, e) && (e.Wait? || e.Spurious? || e.Exit?)
    ensures Inv(b, c, Next(b, c, s, e))
  {
    hide Queued, Consecutive, Flights, InOrder, Replay, CanApply, CanDecode;
    var pc := if e.Wait? then Waiting else if e.Spurious? then Ready else Exited;
    IdleKeepsFlights(s.pending, s.workers, s.inFlight, e.w, pc);
    var t := Next(b, c, s, e);
    assert WorkerMayRun(t) == WorkerMayRun(s);
    if e.Spurious? && SomeWaiting(t.workers) {
      assert SomeWaiting(s.workers);
    }
  }

  lemma StopMoves(b: Backend, c: Config, s: State, e: Step)
    requires Inv(b, c, s) && Enabled(c, s, e) && (e.StopBegin? || e.StopRaise? || e.StopNotify?)
    ensures Inv(b, c, Next(b, c, s, e))
  {
    hide Queued, Consecutive, Flights, InOrder, Replay, SomeWaiting, NoneExited, CanApply, CanDecode;
    WakingKeepsFlights(s.pending, s.workers, s.inFlight);
    OrderOutlivesRaise(s.book.log, s.book.since, s.book.accepted, s.raised);
  }

  lemma CallerLooks(b: Backend, c: Config, s: State, caller: nat)
    requires Inv(b, c, s)
    ensures Inv(b, c, Looked(s, caller))
  {
    hide Queued, Consecutive, Flights, InOrder, Replay, SomeWaiting, NoneExited, CanApply, CanDecode;
  }

  lemma OrderOutlivesRaise(log: seq<Entry>, since: nat, accepted: seq<bytes>, raised: bool)
    requires InOrder(log, since, accepted, raised)
    ensures InOrder(log, since, accepted, true)
  {}

  lemma EnqueueKeepsQueue(b: Backend, pending: map<nat, Document>, accepted: seq<bytes>, from: nat, to: nat, payload: bytes, d: Document)
    requires Queued(b, pending, accepted, from, to) && Genuine(b, d, payload)
    ensures Queued(b, pending[to := d], accepted + [payload], from, to + 1)
    ensures Consecutive(pending, from, to) ==> Consecutive(pending[to := d], from, to + 1)
    ensures |pending[to := d]| == |pending| + 1
  {
    hide Genuine;
    SizeGrows(pending, to, d);
    var longer := accepted + [payload];
    assert longer[to - 1] == payload;
    forall t | t in pending
      ensures from <= t < to && longer[t - 1] == accepted[t - 1]
    {}
  }

  lemma SizeGrows(pending: map<nat, Document>, t: nat, d: Document)
    requires t !in pending
    ensures |pending[t := d]| == |pending| + 1
  {
    assert pending[t := d].Keys == pending.Keys + {t};
    assert |pending[t := d].Keys| == |pending[t := d]| && |pending.Keys| == |pending|;
  }

  lemma UnchangedFlights(pending: map<nat, Document>, other: map<nat, Document>, workers: seq<Pc>, inFlight: nat)
    requires Flights(pending, workers, inFlight) && Flying(other) == Flying(pending)
    ensures Flights(other, workers, inFlight)
  {}

  lemma OrderExtends(log: seq<Entry>, since: nat, accepted: seq<bytes>, payload: bytes, raised: bool)
    requires InOrder(log, since, accepted, raised)
    ensures InOrder(log, since, accepted + [payload], raised)
  {}

  lemma EnqueueKeeps(b: Backend, c: Config, s: State, payload: bytes)
    requires Inv(b, c, s) && c.threads > 0 && Enabled(c, s, Submit(payload))
    ensures Inv(b, c, Enqueued(s, payload))
  {
    hide Queued, Consecutive, Flights, InOrder, Replay, SomeWaiting, NoneExited, Flying;
    var d := Document(payload, false, false, false, Decoded(true, [], []));
    EnqueueKeepsQueue(b, s.pending, s.book.accepted, s.nextApply, s.nextTicket, payload, d);
    assert Flying(s.pending[s.nextTicket := d]) == Flying(s.pending) by { EnqueuedIsNotFlying(b, s.pending, s.book.accepted, s.nextApply, s.nextTicket, d); }
    UnchangedFlights(s.pending, s.pending[s.nextTicket := d], s.workers, s.inFlight);
    WakingKeepsFlights(s.pending[s.nextTicket := d], s.workers, s.inFlight);
    OrderExtends(s.book.log, s.book.since, s.book.accepted, payload, s.raised);
  }

  lemma EnqueuedIsNotFlying(b: Backend, pending: map<nat, Document>, accepted: seq<bytes>, from: nat, to: nat, d: Document)
    requires Queued(b, pending, accepted, from, to) && !d.inFlight
    ensures Flying(pending[to := d]) == Flying(pending)
  {
    hide Genuine;
  }

  lemma LogGrows(b: Backend, base: Store, log: seq<Entry>, e: Entry)
    ensures Replay(b, base, log + [e]) == ApplyDocument(b, Replay(b, base, log), b.decode(e.payload), e.upTo)
  {
    hide ApplyDocument;
    assert (log + [e])[..|log|] == log;
  }

  lemma OrderGrows(log: seq<Entry>, since: nat, accepted: seq<bytes>, raised: bool, e: Entry, now: bool)
    requires InOrder(log, since, accepted, raised) && !raised && (e.upTo.Some? ==> now)
    requires e.ticket == since + |log| && 1 <= e.ticket <= |accepted| && e.payload == accepted[e.ticket - 1]
    ensures InOrder(log + [e], since, accepted, now)
  {}

  lemma InlineKeeps(b: Backend, c: Config, s: State, payload: bytes, upTo: Option<nat>)
    requires Inv(b, c, s) && c.threads == 0 && Enabled(c, s, Submit(payload))
    requires upTo.Some? ==> s.book.lifecycle == Free
    ensures upTo == None ==> Inv(b, c, Next(b, c, s, Submit(payload)))
    ensures upTo.Some? ==> Inv(b, c, Next(b, c, s, SubmitCut(payload, upTo.value)))
  {
    hide Flights, InOrder, Replay, NoneExited, AdmitTables, AdmitSamples, Reached, Genuine, CanApply;
    var e := Entry(s.nextTicket, payload, upTo);
    LogGrows(b, s.book.base, s.book.log, e);
    OrderExtends(s.book.log, s.book.since, s.book.accepted, payload, s.raised);
    OrderGrows(s.book.log, s.book.since, s.book.accepted + [payload], s.raised, e, upTo.Some?);
    assert s.pending == map[] && !CanDecode(s.pending);
    assert s.workers == [] && !SomeWaiting(s.workers);
  }

  lemma BeginKeepsFlights(pending: map<nat, Document>, workers: seq<Pc>, inFlight: nat, w: nat, t: nat)
    requires Flights(pending, workers, inFlight)
    requires w < |workers| && !workers[w].Decoding? && t in pending && !pending[t].inFlight
    ensures Flights(pending[t := pending[t].(inFlight := true)], workers[w := Decoding(t)], inFlight + 1)
  {
    var other := pending[t := pending[t].(inFlight := true)];
    var ws := workers[w := Decoding(t)];
    assert Flying(other) == Flying(pending) + {t};
    assert ws[w] == Decoding(t);
    forall u | u in Flying(pending)
      ensures DecodedBy(ws, u)
    {
      var v :| 0 <= v < |workers| && workers[v] == Decoding(u);
      assert ws[v] == Decoding(u);
    }
  }

  /** Replacing one queued document by a genuine one keeps the queue as it is. */
  lemma ReplaceKeepsQueue(b: Backend, pending: map<nat, Document>, accepted: seq<bytes>, from: nat, to: nat, t: nat, d: Document)
    requires Queued(b, pending, accepted, from, to) && t in pending && Genuine(b, d, accepted[t - 1])
    ensures Queued(b, pending[t := d], accepted, from, to)
    ensures Consecutive(pending, from, to) ==> Consecutive(pending[t := d], from, to)
    ensures |pending[t := d]| == |pending|
  {
    hide Genuine;
    assert pending[t := d].Keys == pending.Keys;
    assert |pending[t := d].Keys| == |pending[t := d]| && |pending.Keys| == |pending|;
  }

  lemma BeginKeeps(b: Backend, c: Config, s: State, w: nat, t: nat)
    requires Inv(b, c, s) && Enabled(c, s, Begin(w, t))
    ensures Inv(b, c, Begun(s, w, t))
  {
    hide Queued, Consecutive, Flights, InOrder, Replay, Flying, Genuine;
    BeginKeepsFlights(s.pending, s.workers, s.inFlight, w, t);
    var d := s.pending[t].(inFlight := true);
    FlyingIsGenuine(b, s.pending, s.book.accepted, s.nextApply, s.nextTicket, t);
    ReplaceKeepsQueue(b, s.pending, s.book.accepted, s.nextApply, s.nextTicket, t, d);
  }

  lemma FlyingIsGenuine(b: Backend, pending: map<nat, Document>, accepted: seq<bytes>, from: nat, to: nat, t: nat)
    requires Queued(b, pending, accepted, from, to) && t in pending && Undecoded(pending[t])
    ensures from <= t < to && Genuine(b, pending[t].(inFlight := true), accepted[t - 1])
  {}

  lemma FinishKeepsFlights(pending: map<nat, Document>, workers: seq<Pc>, inFlight: nat, w: nat, d: Document)
    requires Flights(pending, workers, inFlight) && w < |workers| && workers[w].Decoding? && !d.inFlight
    ensures inFlight > 0
    ensures Flights(pending[workers[w].ticket := d], workers[w := Ready], inFlight - 1)
  {
    var t := workers[w].ticket;
    var other := pending[t := d];
    var ws := workers[w := Ready];
    assert t in Flying(pending);
    assert Flying(other) == Flying(pending) - {t};
    forall u | u in Flying(other)
      ensures DecodedBy(ws, u)
    {
      var v :| 0 <= v < |workers| && workers[v] == Decoding(u);
      assert ws[v] == Decoding(u);
    }
  }

  /** What a worker decodes outside the lock is still queued when it takes the lock again. */
  lemma DecodedEntryStays(s: State, w: nat)
    requires Flights(s.pending, s.workers, s.inFlight) && w < |s.workers| && s.workers[w].Decoding?
    ensures s.workers[w].ticket in s.pending && s.pending[s.workers[w].ticket].inFlight && s.inFlight > 0
  {
    assert s.workers[w].ticket in Flying(s.pending);
  }

  lemma DecodingIsGenuine(b: Backend, pending: map<nat, Document>, accepted: seq<bytes>, from: nat, to: nat, t: nat)
    requires Queued(b, pending, accepted, from, to) && t in pending
    ensures from <= t < to && pending[t].payload == accepted[t - 1]
    ensures Genuine(b, pending[t].(result := b.decode(pending[t].payload), decoded := true, inFlight := false), accepted[t - 1])
  {}

  lemma FinishKeeps(b: Backend, c: Config, s: State, w: nat)
    requires Inv(b, c, s) && Enabled(c, s, Finish(w))
    ensures Inv(b, c, Finished(b, s, w))
  {
    hide Queued, Consecutive, Flights, InOrder, Replay, Flying, Genuine, SomeWaiting, NoneExited, CanApply, CanDecode;
    DecodedEntryStays(s, w);
    var t := s.workers[w].ticket;
    var d := s.pending[t].(result := b.decode(s.pending[t].payload), decoded := true, inFlight := false);
    DecodingIsGenuine(b, s.pending, s.book.accepted, s.nextApply, s.nextTicket, t);
    ReplaceKeepsQueue(b, s.pending, s.book.accepted, s.nextApply, s.nextTicket, t, d);
    FinishKeepsFlights(s.pending, s.workers, s.inFlight, w, d);
    WakingKeepsFlights(s.pending[t := d], s.workers[w := Ready], s.inFlight - 1);
    if !s.raised {
      assert NoneExited(s.workers[w := Ready]) by { ReadyIsNotExited(s.workers, w); }
    }
  }

  lemma ReadyIsNotExited(workers: seq<Pc>, w: nat)
    requires NoneExited(workers) && w < |workers|
    ensures NoneExited(workers[w := Ready])
  {}

  lemma RemoveKeepsQueue(b: Backend, pending: map<nat, Document>, accepted: seq<bytes>, from: nat, to: nat)
    requires Queued(b, pending, accepted, from, to) && from in pending && pending[from].decoded
    ensures from < to && pending[from].payload == accepted[from - 1]
    ensures pending[from].result == b.decode(accepted[from - 1]) && !pending[from].inFlight
    ensures Queued(b, pending - {from}, accepted, from + 1, to)
    ensures Consecutive(pending, from, to) ==> Consecutive(pending - {from}, from + 1, to)
    ensures |pending - {from}| == |pending| - 1 && Flying(pending - {from}) == Flying(pending)
  {
    assert (pending - {from}).Keys == pending.Keys - {from};
    assert |(pending - {from}).Keys| == |pending - {from}| && |pending.Keys| == |pending|;
  }

  /** What applying does to the parts of the invariant that it touches. */
  lemma AppliedParts(b: Backend, c: Config, s: State, upTo: Option<nat>)
    requires Inv(b, c, s) && !s.raised && CanApply(s.pending, s.nextApply) && c.threads > 0
    ensures (var t := Applied(b, s, upTo);
      && Queue(b, c, t) && Flights(t.pending, t.workers, t.inFlight)
      && !SomeWaiting(t.workers) && NoneExited(t.workers) && |t.workers| == |s.workers| && |t.pending| == |s.pending| - 1
      && |t.book.log| == Unreached(c, t) - t.book.since && t.store == Replay(b, t.book.base, t.book.log)
      && InOrder(t.book.log, t.book.since, t.book.accepted, upTo.Some?))
  {
    hide Queued, Consecutive, Flights, InOrder, Replay, Flying, Genuine, SomeWaiting, NoneExited, ApplyDocument;
    RemoveKeepsQueue(b, s.pending, s.book.accepted, s.nextApply, s.nextTicket);
    UnchangedFlights(s.pending, s.pending - {s.nextApply}, s.workers, s.inFlight);
    WakingKeepsFlights(s.pending - {s.nextApply}, s.workers, s.inFlight);
    var e := Entry(s.nextApply, s.pending[s.nextApply].payload, upTo);
    LogGrows(b, s.book.base, s.book.log, e);
    QueuedLengths(b, s.pending, s.book.accepted, s.nextApply, s.nextTicket);
    OrderGrows(s.book.log, s.book.since, s.book.accepted, s.raised, e, upTo.Some?);
  }

  lemma ApplyKeeps(b: Backend, c: Config, s: State, w: nat)
    requires Inv(b, c, s) && Enabled(c, s, Apply(w))
    ensures Inv(b, c, Next(b, c, s, Apply(w)))
  {
    hide Queue, Flights, InOrder, Replay, SomeWaiting, NoneExited, ApplyDocument;
    WorkersMeanThreads(b, c, s, w);
    AppliedParts(b, c, s, None);
  }

  lemma ApplyCutKeeps(b: Backend, c: Config, s: State, w: nat, k: nat)
    requires Inv(b, c, s) && Enabled(c, s, ApplyCut(w, k))
    ensures Inv(b, c, Next(b, c, s, ApplyCut(w, k)))
  {
    hide Queued, Consecutive, Flights, InOrder, Replay, SomeWaiting, NoneExited, ApplyDocument;
    WorkersMeanThreads(b, c, s, w);
    AppliedParts(b, c, s, Some(k));
  }

  lemma WorkersMeanThreads(b: Backend, c: Config, s: State, w: nat)
    requires Inv(b, c, s) && w < |s.workers|
    ensures c.threads > 0
  {}

  lemma QueuedLengths(b: Backend, pending: map<nat, Document>, accepted: seq<bytes>, from: nat, to: nat)
    requires Queued(b, pending, accepted, from, to)
    ensures 1 <= from <= to && |accepted| == to - 1
  {}

  lemma OpenKeeps(b: Backend, c: Config, s: State)
    requires Inv(b, c, s) && Enabled(c, s, StartBegin)
    ensures Inv(b, c, Opened(s))
  {
    assert Flying(map[]) == {};
  }

  lemma RecoverKeeps(b: Backend, c: Config, s: State, ok: bool, store: Store)
    requires Inv(b, c, s) && Enabled(c, s, StartEnd(ok, store))
    ensures Inv(b, c, Recovered(c, s, ok, store))
  {
    hide Queued, Consecutive, Genuine;
    QueuedLengths(b, s.pending, s.book.accepted, s.nextApply, s.nextTicket);
  }

  lemma JoinKeeps(b: Backend, c: Config, s: State)
    requires Inv(b, c, s) && Enabled(c, s, StopJoin)
    ensures Inv(b, c, Discarded(s))
  {
    hide Queued, Consecutive, Flights, InOrder, Replay, Unapplied, Genuine, CanApply, CanDecode;
    NothingApplied(b, s.pending, s.book.accepted, s.nextApply, s.nextTicket);
    NothingQueued(b, s.pending, s.book.accepted, s.nextApply, s.nextTicket);
  }

  lemma NothingQueued(b: Backend, pending: map<nat, Document>, accepted: seq<bytes>, from: nat, to: nat)
    requires Queued(b, pending, accepted, from, to)
    ensures Queued(b, map[], accepted, from, to) && Flights(map[], [], 0)
  {
    assert Flying(map[]) == {};
  }

  lemma NothingApplied(b: Backend, pending: map<nat, Document>, accepted: seq<bytes>, from: nat, to: nat)
    requires Queued(b, pending, accepted, from, to)
    ensures |Unapplied(pending)| == |pending|
  {
    assert Unapplied(pending) == pending.Keys && |pending.Keys| == |pending|;
  }

  /** Every step keeps the invariant. */
  lemma StepKeeps(b: Backend, c: Config, s: State, e: Step)
    requires Inv(b, c, s) && Enabled(c, s, e)
    ensures Inv(b, c, Next(b, c, s, e))
  {
    hide Inv;
    match e
    case Submit(p) => if c.threads == 0 { InlineKeeps(b, c, s, p, None); } else { EnqueueKeeps(b, c, s, p); }
    case SubmitCut(p, k) => InlineKeeps(b, c, s, p, Some(k));
    case Begin(w, t) => BeginKeeps(b, c, s, w, t);
    case Finish(w) => FinishKeeps(b, c, s, w);
    case Apply(w) => ApplyKeeps(b, c, s, w);
    case ApplyCut(w, k) => ApplyCutKeeps(b, c, s, w, k);
    case StartBegin => OpenKeeps(b, c, s);
    case StartEnd(ok, store) => RecoverKeeps(b, c, s, ok, store);
    case StopJoin => JoinKeeps(b, c, s);
    case StopBegin => StopMoves(b, c, s, e);
    case StopRaise => StopMoves(b, c, s, e);
    case StopNotify => StopMoves(b, c, s, e);
    case Drain(caller) => CallerLooks(b, c, s, caller);
    case Recheck(caller) => CallerLooks(b, c, s, caller);
    case Wait(_) => WorkerMoves(b, c, s, e);
    case Spurious(_) => WorkerMoves(b, c, s, e);
    case Exit(_) => WorkerMoves(b, c, s, e);
  }
}
