/** The runtime's shared state and the regions of its code that run under the queue
    lock, each proved to be one step of the machine in Applier. */
module Runtime {
  import opened Wrappers
  import opened Bytes
  import opened Applier
  import opened ApplierProofs
  import opened ApplierTheorems

  /** A region runs between taking the queue lock and giving it up, so each method
      here is one atomic step. A raised stop token is seen by whoever asks; `token`
      is the number of the sample before which it is first seen, if it is. */
  class Observatory {
    const backend: Backend
    const config: Config

    var phase: Phase
    var raised: bool
    var pending: map<nat, Document>
    var nextTicket: nat
    var nextApply: nat
    var queuedSamples: nat
    var queuedBatches: nat
    var inFlight: nat
    var applied: nat
    var dropped: nat
    var failures: nat
    var workers: seq<Pc>
    var store: Store

    // What the specification keeps track of beside them.
    ghost var book: Book

    ghost function View(): State
      reads this
    {
      State(phase, raised, pending, nextTicket, nextApply, queuedSamples, queuedBatches, inFlight,
            applied, dropped, failures, workers, store, book)
    }

    /** Queued tickets lie between the next to apply and the next to give out. */
    ghost predicate Spanned()
      reads this
    {
      forall t :: t in pending ==> 1 <= nextApply <= t < nextTicket
    }

    constructor (backend: Backend, config: Config, store: Store)
      ensures this.backend == backend && this.config == config && View() == Fresh(store)
    {
      this.backend, this.config, this.store := backend, config, store;
      phase, raised, pending, nextTicket, nextApply := Created, false, map[], 1, 1;
      queuedSamples, queuedBatches, inFlight, applied, dropped, failures := 0, 0, 0, 0, 0, 0;
      workers, book := [], Book(Free, {}, {}, store, 1, [], [], 0, 0, 0, false, false);
    }

    // ---- applying a document ---------------------------------------------------------

    /** Tables in order up to the first refused one, then samples in order up to the
        first before which the token is seen raised. */
    method ApplyDecoded(d: Decoded, token: Option<nat>)
      modifies `store, `failures
      ensures store == ApplyDocument(backend, old(store), d, token)
      ensures failures == if d.ok then old(failures) else old(failures) + 1
    {
      if !d.ok {
        failures := failures + 1;
        return;
      }
      assert d.tables[0..] == d.tables;
      for i := 0 to |d.tables|
        invariant AdmitTables(backend, store, d.tables[i..]) == AdmitTables(backend, old(store), d.tables)
        invariant failures == old(failures)
      {
        assert d.tables[i..][1..] == d.tables[i + 1..];
        var (next, ok) := backend.admitTable(store, d.tables[i]);
        store := next;
        if !ok {
          return;
        }
      }
      IngestBatch(d.samples, token);
    }

    method IngestBatch(samples: seq<Sample>, token: Option<nat>)
      modifies `store
      ensures store == AdmitSamples(backend, old(store), Reached(samples, token))
    {
      ghost var reached := Reached(samples, token);
      assert reached[0..] == reached;
      for i := 0 to |samples|
        invariant i <= |reached| && AdmitSamples(backend, store, reached[i..]) == AdmitSamples(backend, old(store), reached)
      {
        if token == Some(i) {
          return;
        }
        assert reached[i..][0] == samples[i] && reached[i..][1..] == reached[i + 1..];
        store := backend.admitSample(store, samples[i]);
      }
    }

    // ---- submitting ----------------------------------------------------------------------

    method SubmitDocument(payload: bytes, token: Option<nat>) returns (status: Status, ticket: nat)
      modifies this
      ensures status == SubmitStatus(config, old(View()), payload)
      ensures status != Ok ==> View() == old(View()) && ticket == 0
      ensures status == Ok ==> ticket == old(nextTicket)
      ensures status == Ok ==> View() == if config.threads > 0 then Enqueued(old(View()), payload)
                                         else Inline(backend, old(View()), payload, token)
    {
      hide Inline, Enqueued;
      if |payload| > config.maxPayload {
        return Failure(LimitExceeded), 0;
      }
      if phase != Running {
        return Failure(NotRunning), 0;
      }
      if config.threads == 0 {
        ticket := SubmitInline(payload, token);
        return Ok, ticket;
      }
      if |pending| >= config.maxPending {
        return Failure(Busy), 0;
      }
      ticket := Enqueue(payload);
      return Ok, ticket;
    }

    method SubmitInline(payload: bytes, token: Option<nat>) returns (ticket: nat)
      modifies this
      ensures ticket == old(nextTicket) && View() == Inline(backend, old(View()), payload, token)
    {
      hide ApplyDocument, Logged, Admitted;
      ticket := nextTicket;
      nextTicket := nextTicket + 1;
      book := Logged(Admitted(book, payload), Entry(ticket, payload, token));
      var d := backend.decode(payload);
      if d.ok {
        ApplyDecoded(d, token);
        applied := applied + 1;
      } else {
        failures := failures + 1;
        book := book.(refusedInline := book.refusedInline + 1);
      }
    }

    method Enqueue(payload: bytes) returns (ticket: nat)
      modifies this
      ensures ticket == old(nextTicket) && View() == Enqueued(old(View()), payload)
    {
      hide Admitted, WakeWorkers;
      ticket := nextTicket;
      nextTicket := nextTicket + 1;
      pending := pending[ticket := Document(payload, false, false, false, Decoded(true, [], []))];
      queuedBatches := queuedBatches + 1;
      book := Admitted(book, payload);
      workers := WakeWorkers(workers);
    }

    // ---- the worker ---------------------------------------------------------------------------

    /** The first entry that nobody has decoded or is decoding, in ticket order. */
    method FirstUndecoded() returns (ticket: nat)
      requires Spanned()
      ensures ticket == 0 ==> !CanDecode(pending)
      ensures ticket != 0 ==> IsNextToDecode(pending, ticket)
    {
      ticket := nextApply;
      while ticket < nextTicket
        invariant nextApply <= ticket
        invariant forall u :: u in pending && u < ticket ==> !Undecoded(pending[u])
      {
        if ticket in pending && Undecoded(pending[ticket]) {
          return;
        }
        ticket := ticket + 1;
      }
      return 0;
    }

    method MayRun() returns (runs: bool)
      requires Spanned()
      ensures runs == WorkerMayRun(View())
    {
      if raised {
        return true;
      }
      if nextApply in pending && pending[nextApply].decoded {
        return true;
      }
      var first := FirstUndecoded();
      return first != 0;
    }

    /** One pass of a worker from the top of its loop until it gives up the lock. */
    method WorkerTurn(w: nat, token: Option<nat>) returns (did: Step)
      requires Spanned() && w < |workers| && workers[w] == Ready
      modifies this
      ensures Enabled(config, old(View()), did)
      ensures match did
              case Wait(v) => v == w && View() == old(View()).(workers := old(workers)[w := Waiting])
              case Exit(v) => v == w && View() == old(View()).(workers := old(workers)[w := Exited])
              case Begin(v, t) => v == w && View() == Begun(old(View()), w, t)
              case Apply(v) => v == w && View() == Applied(backend, old(View()), token)
              case _ => false
    {
      hide Begun, Applied;
      var runs := MayRun();
      if !runs {
        workers := workers[w := Waiting];
        return Wait(w);
      }
      if raised {
        workers := workers[w := Exited];
        return Exit(w);
      }
      if nextApply in pending && pending[nextApply].decoded {
        ApplyFront(token);
        return Apply(w);
      }
      var ticket := FirstUndecoded();
      BeginDecode(w, ticket);
      return Begin(w, ticket);
    }

    method BeginDecode(w: nat, ticket: nat)
      requires w < |workers| && ticket in pending
      modifies this
      ensures View() == Begun(old(View()), w, ticket)
    {
      pending := pending[ticket := pending[ticket].(inFlight := true)];
      inFlight := inFlight + 1;
      workers := workers[w := Decoding(ticket)];
    }

    method ApplyFront(token: Option<nat>)
      requires CanApply(pending, nextApply)
      modifies this
      ensures View() == Applied(backend, old(View()), token)
    {
      hide ApplyDocument, Told, Logged, WakeWorkers;
      var document := pending[nextApply];
      ApplyDecoded(document.result, token);
      applied := applied + 1;
      pending := pending - {nextApply};
      book := Told(Logged(book, Entry(nextApply, document.payload, token)));
      nextApply := nextApply + 1;
      if queuedBatches > 0 {
        queuedBatches := queuedBatches - 1;
      }
      workers := WakeWorkers(workers);
    }

    /** The worker has decoded outside the lock and takes it again. */
    method FinishDecode(w: nat)
      requires w < |workers| && workers[w].Decoding? && inFlight > 0
      modifies this
      ensures View() == Finished(backend, old(View()), w)
    {
      hide Told, WakeWorkers;
      var ticket := workers[w].ticket;
      if ticket in pending {
        var result := backend.decode(pending[ticket].payload);
        pending := pending[ticket := pending[ticket].(result := result, decoded := true, inFlight := false)];
        queuedSamples := queuedSamples + |result.samples|;
      }
      inFlight := inFlight - 1;
      workers := WakeWorkers(workers[w := Ready]);
      book := Told(book);
    }

    // ---- starting and stopping -----------------------------------------------------------------

    method StartOpening() returns (status: Status)
      requires book.lifecycle == Free
      modifies this
      ensures status == if old(phase) == Created || old(phase) == Stopped then Ok else Failure(Busy)
      ensures View() == if status == Ok then Opened(old(View())) else old(View())
    {
      hide Opened;
      if phase != Created && phase != Stopped {
        return Failure(Busy);
      }
      Open();
      return Ok;
    }

    method Open()
      modifies this
      ensures View() == Opened(old(View()))
    {
      hide Forgotten, Drained;
      book := Forgotten(book, |pending|, Drained(View()), store);
      ClearQueue();
      raised, nextTicket, nextApply, phase := false, 1, 1, Running;
    }

    method ClearQueue()
      modifies `pending, `queuedSamples, `queuedBatches, `inFlight
      ensures pending == map[] && queuedSamples == 0 && queuedBatches == 0 && inFlight == 0
    {
      pending, queuedSamples, queuedBatches, inFlight := map[], 0, 0, 0;
    }

    /** Recovery has ended, leaving some store; only after a successful one do workers start. */
    method StartRecovered(recovered: bool, restored: Store)
      requires book.lifecycle == Recovering
      modifies this
      ensures View() == Recovered(config, old(View()), recovered, restored)
    {
      store := restored;
      book := Rebased(book, restored, if config.threads == 0 then nextTicket else nextApply, recovered);
      if !recovered {
        phase := Created;
        return;
      }
      workers := seq(config.threads, _ => Ready);
    }

    method StopBeginning() returns (done: bool)
      requires book.lifecycle == Free
      modifies this
      ensures done == (old(phase) == Created || old(phase) == Stopped)
      ensures View() == if done then old(View()).(phase := Stopped)
                        else AtLifecycle(old(View()).(phase := Stopping), StopBegun)
    {
      if phase == Stopped || phase == Created {
        phase := Stopped;
        return true;
      }
      phase := Stopping;
      book := book.(lifecycle := StopBegun);
      return false;
    }

    method RaiseToken()
      requires book.lifecycle == StopBegun
      modifies this
      ensures View() == AtLifecycle(old(View()).(raised := true), Raised)
    {
      raised := true;
      book := book.(lifecycle := Raised);
    }

    method WakeForStop()
      requires book.lifecycle == Raised
      modifies this
      ensures View() == AtLifecycle(old(View()).(workers := WakeWorkers(old(workers))), Joining)
    {
      workers := WakeWorkers(workers);
      book := book.(lifecycle := Joining);
    }

    /** Every worker has been joined: what is left is counted and discarded. */
    method DiscardPending()
      requires Spanned() && book.lifecycle == Joining && forall w :: 0 <= w < |workers| ==> workers[w] == Exited
      modifies this
      ensures View() == Discarded(old(View()))
    {
      hide Told, Unapplied;
      CountUnapplied();
      ClearQueue();
      workers, phase := [], Stopped;
      book := Told(book.(lifecycle := Free));
    }

    method CountUnapplied()
      requires Spanned()
      modifies `dropped
      ensures dropped == old(dropped) + |Unapplied(pending)|
    {
      ghost var counted: set<nat> := {};
      var ticket := nextApply;
      while ticket < nextTicket
        invariant counted == set t | t in Unapplied(pending) && t < ticket
        invariant dropped == old(dropped) + |counted|
      {
        if ticket in pending && !pending[ticket].applied {
          dropped := dropped + 1;
          counted := counted + {ticket};
        }
        ticket := ticket + 1;
      }
      assert counted == Unapplied(pending);
    }

    // ---- draining -----------------------------------------------------------------------------

    /** A drain call evaluates its condition and returns or goes to sleep. */
    method DrainLooks(ghost caller: nat) returns (done: bool)
      modifies this
      ensures done == Drained(old(View()))
      ensures View() == Looked(old(View()), caller)
    {
      done := |pending| == 0 && inFlight == 0;
      book := book.(rechecking := book.rechecking - {caller});
      if !done {
        book := book.(blocked := book.blocked + {caller});
      }
    }
  }

  /** What the regions ask of the state holds in every state of the machine. */
  lemma RegionsMayRun(b: Backend, c: Config, s: State, w: nat)
    requires Inv(b, c, s)
    ensures forall t :: t in s.pending ==> 1 <= s.nextApply <= t < s.nextTicket
    ensures w < |s.workers| && s.workers[w].Decoding? ==> s.inFlight > 0 && s.workers[w].ticket in s.pending
  {
    hide Coherent, Ledger, Totals, Awake, Genuine;
    if w < |s.workers| && s.workers[w].Decoding? {
      DecodedEntryStays(s, w);
    }
  }
}
