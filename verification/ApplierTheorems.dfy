/** What holds of the applier over whole runs: the order in which documents reach
    the store, that nothing is lost on the way, and that the queue empties. */
module ApplierTheorems {
  import opened Wrappers
  import opened Bytes
  import opened Applier
  import opened ApplierProofs

  // ---- every run ---------------------------------------------------------------------------

  lemma FreshHolds(b: Backend, c: Config, store: Store)
    ensures Inv(b, c, Fresh(store))
  {}

  /** Whatever is submitted, scheduled, started and stopped, the invariant holds. */
  lemma {:induction false} RunKeeps(b: Backend, c: Config, s: State, steps: seq<Step>)
    requires Inv(b, c, s) && IsRun(b, c, s, steps)
    ensures Inv(b, c, After(b, c, s, steps))
    decreases |steps|
  {
    hide Inv, Next, Enabled;
    if steps != [] {
      StepKeeps(b, c, s, steps[0]);
      RunKeeps(b, c, Next(b, c, s, steps[0]), steps[1..]);
    }
  }

  // ---- order ---------------------------------------------------------------------------------

  /** The payloads that have reached the store since recovery, in ticket order. */
  function Reaching(c: Config, s: State): seq<bytes>
    requires 1 <= s.book.since <= Unreached(c, s) <= |s.book.accepted| + 1
  {
    s.book.accepted[s.book.since - 1..Unreached(c, s) - 1]
  }

  lemma {:induction false} WholeReplay(b: Backend, store: Store, log: seq<Entry>, payloads: seq<bytes>)
    requires |log| == |payloads|
    requires forall i :: 0 <= i < |log| ==> log[i].payload == payloads[i] && log[i].upTo == None
    ensures Replay(b, store, log) == Sequential(b, store, payloads)
    decreases |log|
  {
    hide ApplyDocument;
    if log != [] {
      WholeReplay(b, store, log[..|log| - 1], payloads[..|log| - 1]);
    }
  }

  /** Where the last document applied was cut, if it was. */
  function LastCut(s: State): Option<nat> {
    if s.book.log == [] then None else s.book.log[|s.book.log| - 1].upTo
  }

  /** The store is what applying the submissions one by one makes of it, in the order
      of their tickets, when the last of them was applied whole; and else, which takes a
      stop, it is that with the last one cut at the sample where the token was seen. */
  lemma OrderedApplication(b: Backend, c: Config, store: Store, steps: seq<Step>)
    requires IsRun(b, c, Fresh(store), steps)
    ensures (var s := After(b, c, Fresh(store), steps);
      && 1 <= s.book.since <= Unreached(c, s) <= |s.book.accepted| + 1
      && (var reached := Reaching(c, s);
          && (LastCut(s).None? ==> s.store == Sequential(b, s.book.base, reached))
          && (LastCut(s).Some? ==>
                s.raised && reached != [] && s.store == CutShort(b, s.book.base, reached, LastCut(s).value))))
  {
    hide Enabled, Next, Queued, Consecutive, Flights, Coherent, Totals, Awake, ApplyDocument, Sequential;
    FreshHolds(b, c, store);
    RunKeeps(b, c, Fresh(store), steps);
    var s := After(b, c, Fresh(store), steps);
    QueuedLengths(b, s.pending, s.book.accepted, s.nextApply, s.nextTicket);
    LedgerMeansSequential(b, c, s);
  }

  /** All but the last whole, the last with its first k samples only. */
  function CutShort(b: Backend, store: Store, payloads: seq<bytes>, k: nat): Store
    requires payloads != []
  {
    var last := |payloads| - 1;
    ApplyDocument(b, Sequential(b, store, payloads[..last]), b.decode(payloads[last]), Some(k))
  }

  lemma LedgerMeansSequential(b: Backend, c: Config, s: State)
    requires Ledger(b, c, s) && Unreached(c, s) <= |s.book.accepted| + 1
    ensures LastCut(s).None? ==> s.store == Sequential(b, s.book.base, Reaching(c, s))
    ensures LastCut(s).Some? ==>
              s.raised && Reaching(c, s) != [] && s.store == CutShort(b, s.book.base, Reaching(c, s), LastCut(s).value)
    ensures !s.raised ==> s.store == Sequential(b, s.book.base, Reaching(c, s))
  {
    hide ApplyDocument, Sequential;
    var reached, n := Reaching(c, s), |s.book.log|;
    assert |reached| == n;
    assert forall i :: 0 <= i < n ==> s.book.log[i].payload == reached[i];
    if n == 0 || s.book.log[n - 1].upTo == None {
      WholeReplay(b, s.book.base, s.book.log, reached);
    } else {
      WholeReplay(b, s.book.base, s.book.log[..n - 1], reached[..n - 1]);
      assert s.store == CutShort(b, s.book.base, reached, s.book.log[n - 1].upTo.value);
    }
  }

  /** Stop does cut: a worker that is applying when the token is raised leaves the document
      at any sample, and it stays so. */
  lemma StopCuts(b: Backend, c: Config, store: Store, payload: bytes, k: nat)
    requires c.threads > 0 && c.maxPending > 0 && |payload| <= c.maxPayload
    ensures (var steps := [StartBegin, StartEnd(true, store), Submit(payload), Begin(0, 1), Finish(0), StopBegin, ApplyCut(0, k)];
      && IsRun(b, c, Fresh(store), steps)
      && (var s := After(b, c, Fresh(store), steps);
          LastCut(s) == Some(k) && s.store == CutShort(b, store, [payload], k)))
  {
    hide ApplyDocument;
    var s0 := Fresh(store);
    var s1 := Opened(s0);
    var s2 := Recovered(c, s1, true, store);
    var s3 := Enqueued(s2, payload);
    var e3 := [Begin(0, 1), Finish(0), StopBegin, ApplyCut(0, k)];
    var e2 := [Submit(payload)] + e3;
    var e1 := [StartEnd(true, store)] + e2;
    assert [StartBegin] + e1 == [StartBegin, StartEnd(true, store), Submit(payload), Begin(0, 1), Finish(0), StopBegin, ApplyCut(0, k)];
    assert [payload][..0] == [] && Sequential(b, store, []) == store;
    OneIsDecodedAndCut(b, c, s3, payload, k);
    SessionOpens(b, c, store, payload);
    hide Enabled, Next, IsRun, After, Opened, Recovered, Enqueued, CutShort;
    OneStep(b, c, s2, Submit(payload), e3);
    OneStep(b, c, s1, StartEnd(true, store), e2);
    OneStep(b, c, s0, StartBegin, e1);
    assert CutShort(b, store, [payload], k) == ApplyDocument(b, store, b.decode(payload), Some(k)) by { OnlyOneCut(b, store, payload, k); }
  }

  lemma OnlyOneCut(b: Backend, store: Store, payload: bytes, k: nat)
    ensures CutShort(b, store, [payload], k) == ApplyDocument(b, store, b.decode(payload), Some(k))
  {
    assert [payload][..0] == [];
  }

  lemma SessionOpens(b: Backend, c: Config, store: Store, payload: bytes)
    requires c.threads > 0 && c.maxPending > 0 && |payload| <= c.maxPayload
    ensures (var s0 := Fresh(store); var s1 := Opened(s0); var s2 := Recovered(c, s1, true, store);
      && Enabled(c, s0, StartBegin) && Next(b, c, s0, StartBegin) == s1
      && Enabled(c, s1, StartEnd(true, store)) && Next(b, c, s1, StartEnd(true, store)) == s2
      && Enabled(c, s2, Submit(payload)) && Next(b, c, s2, Submit(payload)) == Enqueued(s2, payload))
  {}

  lemma OneIsDecodedAndCut(b: Backend, c: Config, s: State, payload: bytes, k: nat)
    requires s.pending == map[1 := Document(payload, false, false, false, Decoded(true, [], []))]
    requires s.nextApply == 1 && s.inFlight == 0 && s.workers != [] && s.workers[0] == Ready
    requires s.phase == Running && !s.raised && s.book.lifecycle == Free && s.book.log == []
    ensures (var steps := [Begin(0, 1), Finish(0), StopBegin, ApplyCut(0, k)];
      && IsRun(b, c, s, steps)
      && (var t := After(b, c, s, steps);
          && t.book.log == [Entry(1, payload, Some(k))]
          && t.store == ApplyDocument(b, s.store, b.decode(payload), Some(k))))
  {
    hide ApplyDocument, WorkerMayRun, Unapplied, SubmitStatus;
    var t1 := Begun(s, 0, 1);
    var t2 := Finished(b, t1, 0);
    assert CanApply(t2.pending, 1) && t2.workers[0] == Ready;
    assert [Begin(0, 1)] + [Finish(0), StopBegin, ApplyCut(0, k)] == [Begin(0, 1), Finish(0), StopBegin, ApplyCut(0, k)];
    assert [Finish(0)] + [StopBegin, ApplyCut(0, k)] == [Finish(0), StopBegin, ApplyCut(0, k)];
    FrontIsCut(b, c, t2, k);
    OneStep(b, c, t1, Finish(0), [StopBegin, ApplyCut(0, k)]);
    OneStep(b, c, s, Begin(0, 1), [Finish(0), StopBegin, ApplyCut(0, k)]);
  }

  lemma FrontIsCut(b: Backend, c: Config, s: State, k: nat)
    requires CanApply(s.pending, s.nextApply) && s.workers != [] && s.workers[0] == Ready
    requires s.phase == Running && s.book.lifecycle == Free
    ensures (var steps := [StopBegin, ApplyCut(0, k)];
      && IsRun(b, c, s, steps)
      && (var t := After(b, c, s, steps);
          && t.book.log == s.book.log + [Entry(s.nextApply, s.pending[s.nextApply].payload, Some(k))]
          && t.store == ApplyDocument(b, s.store, s.pending[s.nextApply].result, Some(k))))
  {
    hide ApplyDocument, WorkerMayRun, Unapplied, SubmitStatus;
    var t1 := AtLifecycle(s.(phase := Stopping), StopBegun);
    assert [StopBegin] + [ApplyCut(0, k)] == [StopBegin, ApplyCut(0, k)];
    assert [ApplyCut(0, k)] + [] == [ApplyCut(0, k)];
    OneStep(b, c, t1, ApplyCut(0, k), []);
    OneStep(b, c, s, StopBegin, [ApplyCut(0, k)]);
  }

  /** Any number of workers under any schedule leaves the store that a runtime without
      workers leaves, once the queue is drained. */
  lemma WorkersDoNotMatter(b: Backend, c: Config, one: Config, store: Store, steps: seq<Step>, others: seq<Step>)
    requires c.threads > 0 && one.threads == 0
    requires IsRun(b, c, Fresh(store), steps) && IsRun(b, one, Fresh(store), others)
    requires (var s, z := After(b, c, Fresh(store), steps), After(b, one, Fresh(store), others);
      && !s.raised && !z.raised && Drained(s) && s.phase == Running
      && s.book.base == z.book.base && s.book.since == z.book.since && s.book.accepted == z.book.accepted)
    ensures After(b, c, Fresh(store), steps).store == After(b, one, Fresh(store), others).store
  {
    hide Enabled, Next, Flights, Coherent, Totals, Awake, Replay, Sequential, InOrder, Genuine;
    FreshHolds(b, c, store);
    FreshHolds(b, one, store);
    RunKeeps(b, c, Fresh(store), steps);
    RunKeeps(b, one, Fresh(store), others);
    var s, z := After(b, c, Fresh(store), steps), After(b, one, Fresh(store), others);
    assert s.nextApply !in s.pending && s.nextApply == s.nextTicket;
    LedgerMeansSequential(b, c, s);
    LedgerMeansSequential(b, one, z);
  }

  // ---- nothing lost ---------------------------------------------------------------------------

  /** How many documents the starts of a run have found in the queue. */
  ghost function LeftAtStarts(b: Backend, c: Config, s: State, steps: seq<Step>): nat
    requires IsRun(b, c, s, steps)
    decreases |steps|
  {
    if steps == [] then 0
    else (if steps[0].StartBegin? then |s.pending| else 0) + LeftAtStarts(b, c, Next(b, c, s, steps[0]), steps[1..])
  }

  /** Every start of the run was taken with an empty queue. */
  ghost predicate StartsEmpty(b: Backend, c: Config, s: State, steps: seq<Step>)
    requires IsRun(b, c, s, steps)
    decreases |steps|
  {
    steps == []
    || ((steps[0].StartBegin? ==> s.pending == map[]) && StartsEmpty(b, c, Next(b, c, s, steps[0]), steps[1..]))
  }

  lemma OneStepLoses(b: Backend, c: Config, s: State, e: Step)
    requires Enabled(c, s, e)
    ensures Next(b, c, s, e).book.lost == s.book.lost + if e.StartBegin? then |s.pending| else 0
  {
    hide ApplyDocument, WakeWorkers, WorkerMayRun, Unapplied, CanDecode, SubmitStatus, IsNextToDecode, CanApply;
  }

  lemma {:induction false} LostIsLeft(b: Backend, c: Config, s: State, steps: seq<Step>)
    requires IsRun(b, c, s, steps)
    ensures After(b, c, s, steps).book.lost == s.book.lost + LeftAtStarts(b, c, s, steps)
    ensures StartsEmpty(b, c, s, steps) <==> LeftAtStarts(b, c, s, steps) == 0
    decreases |steps|
  {
    hide Next, Enabled;
    if steps != [] {
      OneStepLoses(b, c, s, steps[0]);
      LostIsLeft(b, c, Next(b, c, s, steps[0]), steps[1..]);
    }
  }

  /** Over any run every admitted submission is applied, dropped by stop, queued or, without
      workers, refused on the spot, exactly when every start was taken with an empty queue;
      what starts found queued is what is missing. Starts find something only after a
      recovery failed. */
  lemma NothingLost(b: Backend, c: Config, store: Store, steps: seq<Step>)
    requires IsRun(b, c, Fresh(store), steps)
    ensures (var s, left := After(b, c, Fresh(store), steps), LeftAtStarts(b, c, Fresh(store), steps);
      && s.book.admitted == s.applied + s.dropped + |s.pending| + s.book.refusedInline + left
      && (c.threads > 0 ==> s.book.refusedInline == 0)
      && (s.book.admitted == s.applied + s.dropped + |s.pending| + s.book.refusedInline
          <==> StartsEmpty(b, c, Fresh(store), steps))
      && (!s.book.recoveryFailed ==> StartsEmpty(b, c, Fresh(store), steps)))
  {
    hide Enabled, Next, Queue, Flights, Coherent, Ledger, Awake;
    FreshHolds(b, c, store);
    RunKeeps(b, c, Fresh(store), steps);
    LostIsLeft(b, c, Fresh(store), steps);
  }

  /** With a failed recovery it is different: the next start forgets what was queued
      meanwhile without counting it, and leaves a caller waiting on an empty queue. */
  lemma FailedRecoveryLoses(b: Backend, c: Config, store: Store, payload: bytes, caller: nat)
    requires c.threads > 0 && c.maxPending > 0 && |payload| <= c.maxPayload
    ensures (var steps := [StartBegin, Submit(payload), StartEnd(false, store), Drain(caller), StartBegin];
      && IsRun(b, c, Fresh(store), steps)
      && (var s := After(b, c, Fresh(store), steps);
          && s.book.admitted == 1 && s.book.lost == 1 && s.applied == 0 && s.dropped == 0
          && Drained(s) && caller in s.book.blocked && caller !in s.book.rechecking))
  {
    var s0 := Fresh(store);
    var s1 := Opened(s0);
    var s2 := Enqueued(s1, payload);
    var s3 := Recovered(c, s2, false, store);
    assert 1 in s2.pending && |s2.pending| == 1 by { SizeGrows(s1.pending, 1, s2.pending[1]); }
    var s4 := Looked(s3, caller);
    assert !Drained(s3);
    var e4 := [StartBegin];
    var e3 := [Drain(caller)] + e4;
    var e2 := [StartEnd(false, store)] + e3;
    var e1 := [Submit(payload)] + e2;
    var e0 := [StartBegin] + e1;
    assert e0 == [StartBegin, Submit(payload), StartEnd(false, store), Drain(caller), StartBegin];
    OneStep(b, c, s4, StartBegin, []);
    OneStep(b, c, s3, Drain(caller), e4);
    OneStep(b, c, s2, StartEnd(false, store), e3);
    OneStep(b, c, s1, Submit(payload), e2);
    OneStep(b, c, s0, StartBegin, e1);
  }

  lemma OneStep(b: Backend, c: Config, s: State, e: Step, rest: seq<Step>)
    requires Enabled(c, s, e) && IsRun(b, c, Next(b, c, s, e), rest)
    ensures IsRun(b, c, s, [e] + rest)
    ensures After(b, c, s, [e] + rest) == After(b, c, Next(b, c, s, e), rest)
  {
    hide Enabled, Next;
    assert ([e] + rest)[1..] == rest;
  }

  // ---- the workers' waiting condition -----------------------------------------------------------

  lemma LowestUndecoded(pending: map<nat, Document>, t: nat) returns (first: nat)
    requires t in pending && Undecoded(pending[t])
    ensures IsNextToDecode(pending, first)
    decreases t
  {
    if u :| u in pending && u < t && Undecoded(pending[u]) {
      first := LowestUndecoded(pending, u);
    } else {
      first := t;
    }
  }

  /** Something for a worker at the top of its loop to do other than wait. */
  ghost predicate HasWork(c: Config, s: State, w: nat) {
    Enabled(c, s, Exit(w)) || Enabled(c, s, Apply(w)) || exists t: nat :: Enabled(c, s, Begin(w, t))
  }

  /** The condition workers wait for holds exactly when there is something to do:
      neither do they wake for nothing, nor sleep with work to do. */
  lemma WaitsExactlyWithoutWork(c: Config, s: State, w: nat)
    requires w < |s.workers| && s.workers[w] == Ready
    ensures WorkerMayRun(s) <==> HasWork(c, s, w)
    ensures HasWork(c, s, w) <==> !Enabled(c, s, Wait(w))
  {
    if !s.raised && !CanApply(s.pending, s.nextApply) && CanDecode(s.pending) {
      var t :| t in s.pending && Undecoded(s.pending[t]);
      var first := LowestUndecoded(s.pending, t);
      assert Enabled(c, s, Begin(w, first));
    }
  }

  // ---- progress ---------------------------------------------------------------------------------

  predicate ByWorker(e: Step) {
    e.Wait? || e.Begin? || e.Finish? || e.Apply? || e.Exit?
  }

  function Idle(pending: map<nat, Document>): set<nat> {
    set t | t in pending && Undecoded(pending[t])
  }

  function Ripe(pending: map<nat, Document>): set<nat> {
    set t | t in pending && pending[t].decoded
  }

  /** Steps still needed for what is queued. */
  function Work(pending: map<nat, Document>): nat {
    3 * |Idle(pending)| + 2 * |Flying(pending)| + |Ripe(pending)|
  }

  function Readies(workers: seq<Pc>): set<nat> {
    set w | 0 <= w < |workers| && workers[w] == Ready
  }

  function Measure(s: State): nat {
    (|s.workers| + 1) * Work(s.pending) + |Readies(s.workers)|
  }

  function Below(n: nat): (r: set<nat>)
    ensures |r| == n && forall w :: w in r <==> 0 <= w < n
  {
    if n == 0 then {} else Below(n - 1) + {n - 1}
  }

  lemma ReadiesBounded(workers: seq<Pc>)
    ensures |Readies(workers)| <= |workers|
  {
    Subset(Readies(workers), Below(|workers|));
  }

  lemma {:induction false} Subset(a: set<nat>, b: set<nat>)
    requires a <= b
    ensures |a| <= |b|
    decreases |a|
  {
    if x :| x in a {
      Subset(a - {x}, b - {x});
    }
  }

  lemma BeginWorks(b: Backend, pending: map<nat, Document>, t: nat)
    requires t in pending && Undecoded(pending[t])
    ensures Work(pending[t := pending[t].(inFlight := true)]) == Work(pending) - 1
  {
    var other := pending[t := pending[t].(inFlight := true)];
    assert Idle(other) == Idle(pending) - {t};
    assert Flying(other) == Flying(pending) + {t};
    assert Ripe(other) == Ripe(pending);
  }

  lemma FinishWorks(pending: map<nat, Document>, t: nat, d: Document)
    requires t in pending && pending[t].inFlight && !pending[t].decoded && d.decoded && !d.inFlight
    ensures Work(pending[t := d]) == Work(pending) - 1
  {
    var other := pending[t := d];
    assert Idle(other) == Idle(pending);
    assert Flying(other) == Flying(pending) - {t};
    assert Ripe(other) == Ripe(pending) + {t};
  }

  lemma ApplyWorks(pending: map<nat, Document>, t: nat)
    requires t in pending && pending[t].decoded && !pending[t].inFlight
    ensures Work(pending - {t}) == Work(pending) - 1
  {
    var other := pending - {t};
    assert Idle(other) == Idle(pending);
    assert Flying(other) == Flying(pending);
    assert Ripe(other) == Ripe(pending) - {t};
  }

  lemma NotReadyAnyMore(workers: seq<Pc>, w: nat, pc: Pc)
    requires w < |workers| && workers[w] == Ready && pc != Ready
    ensures |Readies(workers[w := pc])| == |Readies(workers)| - 1
  {
    assert Readies(workers[w := pc]) == Readies(workers) - {w};
  }

  lemma MeasureFalls(n: nat, work: nat, less: nat, ready: nat, now: nat)
    requires less + 1 == work && now <= n
    ensures (n + 1) * less + now < (n + 1) * work + ready
  {}

  lemma WorkFalls(b: Backend, c: Config, s: State, e: Step)
    requires Inv(b, c, s) && Enabled(c, s, e) && (e.Begin? || e.Finish? || e.Apply?)
    ensures (var t := Next(b, c, s, e); Work(t.pending) + 1 == Work(s.pending) && |t.workers| == |s.workers|)
  {
    hide Work, Flying, Queue, Flights, Coherent, Ledger, Totals, Awake, CanDecode, ApplyDocument;
    match e
    case Begin(w, u) => BeginWorks(b, s.pending, u);
    case Finish(w) =>
      DecodedEntryStays(s, w);
      FlyingIsUndecoded(b, c, s, s.workers[w].ticket);
      FinishWorks(s.pending, s.workers[w].ticket, Next(b, c, s, e).pending[s.workers[w].ticket]);
    case Apply(w) =>
      FlyingIsUndecoded(b, c, s, s.nextApply);
      ApplyWorks(s.pending, s.nextApply);
  }

  /** Every step a worker takes brings the queue closer to empty. */
  lemma WorkerStepDecreases(b: Backend, c: Config, s: State, e: Step)
    requires Inv(b, c, s) && Enabled(c, s, e) && ByWorker(e)
    ensures Measure(Next(b, c, s, e)) < Measure(s)
  {
    hide Inv, Work, Readies;
    var t := Next(b, c, s, e);
    if e.Wait? || e.Exit? {
      NotReadyAnyMore(s.workers, e.w, if e.Wait? then Waiting else Exited);
    } else {
      hide Next;
      ReadiesBounded(t.workers);
      WorkFalls(b, c, s, e);
      MeasureFalls(|s.workers|, Work(s.pending), Work(t.pending), |Readies(s.workers)|, |Readies(t.workers)|);
    }
  }

  lemma FlyingIsUndecoded(b: Backend, c: Config, s: State, t: nat)
    requires Inv(b, c, s) && t in s.pending
    ensures !(s.pending[t].inFlight && s.pending[t].decoded)
  {
    hide Flights, Coherent, Ledger, Totals, Awake;
  }

  /** So a run of worker steps alone cannot be longer than what the queue calls for. */
  lemma {:induction false} WorkerRunsEnd(b: Backend, c: Config, s: State, steps: seq<Step>)
    requires Inv(b, c, s) && IsRun(b, c, s, steps) && forall e :: e in steps ==> ByWorker(e)
    ensures |steps| + Measure(After(b, c, s, steps)) <= Measure(s)
    decreases |steps|
  {
    hide Inv, Next, Enabled, Measure;
    if steps != [] {
      assert steps[0] in steps;
      WorkerStepDecreases(b, c, s, steps[0]);
      StepKeeps(b, c, s, steps[0]);
      WorkerRunsEnd(b, c, Next(b, c, s, steps[0]), steps[1..]);
    }
  }

  ghost predicate Stuck(c: Config, s: State) {
    forall e: Step :: ByWorker(e) ==> !Enabled(c, s, e)
  }

  lemma ReadyIsNotStuck(c: Config, s: State, w: nat)
    requires w < |s.workers| && s.workers[w] == Ready
    ensures !Stuck(c, s)
  {
    WaitsExactlyWithoutWork(c, s, w);
    if !Enabled(c, s, Wait(w)) && !Enabled(c, s, Exit(w)) && !Enabled(c, s, Apply(w)) {
      var t: nat :| Enabled(c, s, Begin(w, t));
      assert ByWorker(Begin(w, t));
    }
  }

  lemma DecodingIsNotStuck(c: Config, s: State, w: nat)
    requires Flights(s.pending, s.workers, s.inFlight) && w < |s.workers| && s.workers[w].Decoding?
    ensures !Stuck(c, s)
  {
    DecodedEntryStays(s, w);
    assert ByWorker(Finish(w)) && Enabled(c, s, Finish(w));
  }

  /** When no worker of a running runtime can take a step, the queue is empty. */
  lemma StuckMeansDrained(b: Backend, c: Config, s: State)
    requires Inv(b, c, s) && c.threads > 0 && s.phase == Running && s.book.lifecycle == Free && Stuck(c, s)
    ensures Drained(s)
  {
    hide Ledger, Totals, Queued, Genuine;
    assert |s.workers| == c.threads;
    forall w | 0 <= w < |s.workers|
      ensures s.workers[w] == Waiting
    {
      var pc := s.workers[w];
      if pc == Ready {
        ReadyIsNotStuck(c, s, w);
      } else if pc.Decoding? {
        DecodingIsNotStuck(c, s, w);
      }
    }
    assert s.workers[0] == Waiting && SomeWaiting(s.workers) && !WorkerMayRun(s);
    NobodyFlies(s);
    if s.pending != map[] {
      FrontDecides(b, c, s);
    }
  }

  lemma NobodyFlies(s: State)
    requires Flights(s.pending, s.workers, s.inFlight)
    requires forall w :: 0 <= w < |s.workers| ==> !s.workers[w].Decoding?
    ensures Flying(s.pending) == {} && s.inFlight == 0
  {
    if t :| t in Flying(s.pending) {
      assert false;
    }
  }

  /** The document next to apply is ripe, or up for decoding, or in somebody's hands. */
  lemma FrontDecides(b: Backend, c: Config, s: State)
    requires Queue(b, c, s) && c.threads > 0 && s.pending != map[]
    ensures CanApply(s.pending, s.nextApply) || CanDecode(s.pending) || s.nextApply in Flying(s.pending)
  {
    hide Genuine;
    var t :| t in s.pending;
    assert s.nextApply in s.pending;
  }

  /** Whoever sleeps in drain is told to look again. */
  predicate Tells(e: Step) {
    e.Finish? || e.Apply? || e.ApplyCut? || e.StopJoin?
  }

  predicate NobodyTold(steps: seq<Step>) {
    forall e :: e in steps ==> !Tells(e)
  }

  /** Some start was taken while a caller slept in drain with the queue not drained, and nobody
      has been told since. */
  ghost predicate SleeperForgotten(b: Backend, c: Config, s: State, steps: seq<Step>)
    requires IsRun(b, c, s, steps)
    decreases |steps|
  {
    steps != []
    && ((steps[0].StartBegin? && s.book.blocked != {} && !Drained(s) && NobodyTold(steps[1..]))
        || SleeperForgotten(b, c, Next(b, c, s, steps[0]), steps[1..]))
  }

  lemma OneStepTells(b: Backend, c: Config, s: State, e: Step)
    requires Enabled(c, s, e)
    ensures (var t := Next(b, c, s, e);
      && (t.book.missedWake <==> (e.StartBegin? && s.book.blocked != {} && !Drained(s)) || (s.book.missedWake && !Tells(e)))
      && (!Tells(e) ==> s.book.blocked <= t.book.blocked) && (e.StartBegin? ==> !Tells(e)))
  {
    hide ApplyDocument, WakeWorkers, WorkerMayRun, Unapplied, CanDecode, SubmitStatus, IsNextToDecode, CanApply;
  }

  lemma {:induction false} MissedWakeIff(b: Backend, c: Config, s: State, steps: seq<Step>)
    requires IsRun(b, c, s, steps) && (s.book.missedWake ==> s.book.blocked != {})
    ensures (var t := After(b, c, s, steps);
      && (t.book.missedWake <==> SleeperForgotten(b, c, s, steps) || (s.book.missedWake && NobodyTold(steps)))
      && (t.book.missedWake ==> t.book.blocked != {}))
    decreases |steps|
  {
    hide Next, Enabled, Drained, Tells;
    if steps != [] {
      var e, rest := steps[0], steps[1..];
      assert steps == [e] + rest;
      assert NobodyTold(steps) <==> !Tells(e) && NobodyTold(rest);
      OneStepTells(b, c, s, e);
      MissedWakeIff(b, c, Next(b, c, s, e), rest);
    }
  }

  /** Draining: worker steps under any schedule come to an end, and there the queue is
      empty and no caller is left waiting for it, unless a start has forgotten some. */
  lemma DrainIsReached(b: Backend, c: Config, s: State, steps: seq<Step>)
    requires Inv(b, c, s) && c.threads > 0 && s.phase == Running && s.book.lifecycle == Free
    requires IsRun(b, c, s, steps) && forall e :: e in steps ==> ByWorker(e)
    ensures |steps| <= Measure(s)
    ensures (var t := After(b, c, s, steps);
             Stuck(c, t) ==> Drained(t) && (t.book.blocked == {} || t.book.missedWake))
  {
    hide Inv, Next, Enabled, Measure;
    RunKeeps(b, c, s, steps);
    WorkerRunsEnd(b, c, s, steps);
    WorkersKeepPhase(b, c, s, steps);
    var t := After(b, c, s, steps);
    if Stuck(c, t) {
      StuckMeansDrained(b, c, t);
      CallersAwake(b, c, t);
    }
  }

  /** Where the queue of a run is drained, a caller is left asleep in drain exactly when a start
      was taken over its head and nobody has been told since. */
  lemma SleepersIff(b: Backend, c: Config, store: Store, steps: seq<Step>)
    requires IsRun(b, c, Fresh(store), steps) && Drained(After(b, c, Fresh(store), steps))
    ensures After(b, c, Fresh(store), steps).book.blocked != {} <==> SleeperForgotten(b, c, Fresh(store), steps)
  {
    hide Inv, Next, Enabled, SleeperForgotten;
    FreshHolds(b, c, store);
    RunKeeps(b, c, Fresh(store), steps);
    MissedWakeIff(b, c, Fresh(store), steps);
    CallersAwake(b, c, After(b, c, Fresh(store), steps));
  }

  /** So where the workers of a running runtime have come to their end, everybody who called
      drain has been served exactly when no start has forgotten a sleeper. */
  lemma DrainServesIff(b: Backend, c: Config, store: Store, steps: seq<Step>)
    requires IsRun(b, c, Fresh(store), steps) && c.threads > 0
    requires (var s := After(b, c, Fresh(store), steps); s.phase == Running && s.book.lifecycle == Free && Stuck(c, s))
    ensures (var s := After(b, c, Fresh(store), steps);
             Drained(s) && (s.book.blocked == {} <==> !SleeperForgotten(b, c, Fresh(store), steps)))
  {
    hide Inv, Next, Enabled, SleeperForgotten, Stuck, Drained;
    FreshHolds(b, c, store);
    RunKeeps(b, c, Fresh(store), steps);
    StuckMeansDrained(b, c, After(b, c, Fresh(store), steps));
    SleepersIff(b, c, store, steps);
  }

  lemma CallersAwake(b: Backend, c: Config, s: State)
    requires Inv(b, c, s) && Drained(s)
    ensures s.book.blocked == {} || s.book.missedWake
  {}

  lemma {:induction false} WorkersKeepPhase(b: Backend, c: Config, s: State, steps: seq<Step>)
    requires IsRun(b, c, s, steps) && forall e :: e in steps ==> ByWorker(e)
    ensures After(b, c, s, steps).phase == s.phase && After(b, c, s, steps).book.lifecycle == s.book.lifecycle
    decreases |steps|
  {
    if steps != [] {
      assert steps[0] in steps;
      WorkersKeepPhase(b, c, Next(b, c, s, steps[0]), steps[1..]);
    }
  }

  /** Stop returns: once the token is raised and everyone told, worker steps come to
      an end, and there every worker has left, so that stop can join them. */
  lemma StopIsReached(b: Backend, c: Config, s: State, steps: seq<Step>)
    requires Inv(b, c, s) && s.book.lifecycle == Joining
    requires IsRun(b, c, s, steps) && forall e :: e in steps ==> ByWorker(e)
    ensures |steps| <= Measure(s)
    ensures Stuck(c, After(b, c, s, steps)) ==> Enabled(c, After(b, c, s, steps), StopJoin)
  {
    hide Inv, Next, Enabled, Measure;
    RunKeeps(b, c, s, steps);
    WorkerRunsEnd(b, c, s, steps);
    WorkersKeepPhase(b, c, s, steps);
    if Stuck(c, After(b, c, s, steps)) {
      StuckMeansLeft(b, c, After(b, c, s, steps));
    }
  }

  lemma StuckMeansLeft(b: Backend, c: Config, s: State)
    requires Inv(b, c, s) && s.book.lifecycle == Joining && Stuck(c, s)
    ensures Enabled(c, s, StopJoin)
  {
    hide Queue, Ledger, Totals;
    assert !SomeWaiting(s.workers);
    forall w | 0 <= w < |s.workers|
      ensures s.workers[w] == Exited
    {
      var pc := s.workers[w];
      if pc.Decoding? {
        DecodingIsNotStuck(c, s, w);
      } else if pc == Ready {
        ReadyIsNotStuck(c, s, w);
      }
    }
  }
}
