/**
 The job-queue actor and its worker tasks as interleaved steps (actor.rs). A worker deregisters its
 job, and only later drops its permit as the task ends; a panicking worker drops the permit alone.
 */
module JobQueue {
  import opened Sequences
  import opened PriorityRunner

  /** A live worker task, known by the submission number of its job. */
  datatype Worker = Worker(jobId: nat, finished: bool)

  /** `submissions`, `dispatched`, `removed` and `panicked` are history. */
  datatype Queue = Queue(
    state: State, workers: map<nat, Worker>,
    submissions: seq<Entry>, dispatched: seq<Entry>, removed: set<Entry>, panicked: set<nat>)

  datatype Event =
    | SubmitJob(jobId: nat, priority: int, kind: nat)
    | DispatchNext
    | CancelJob(jobId: nat)
    | WorkerFinish(worker: nat)
    | WorkerExit(worker: nat)
    | WorkerPanic(worker: nat)

  predicate Enabled(q: Queue, e: Event) {
    match e
    case WorkerFinish(w) => w in q.workers && !q.workers[w].finished
    case WorkerExit(w) => w in q.workers && q.workers[w].finished
    case WorkerPanic(w) => w in q.workers && !q.workers[w].finished
    case _ => true
  }

  ghost function Step(q: Queue, e: Event): Queue
    requires Enabled(q, e)
  {
    match e
    case SubmitJob(jobId, priority, kind) =>
      q.(state := Submitted(q.state, jobId, priority, kind),
         submissions := q.submissions + [Entry(jobId, priority, q.state.seqNo + 1, kind)])
    case DispatchNext =>
      (match Dispatched(q.state)
       case (next, None) => q.(state := next)
       case (next, Some(d)) =>
         q.(state := next, workers := q.workers[d.entry.seqNo := Worker(d.entry.jobId, false)],
            dispatched := q.dispatched + [d.entry]))
    case CancelJob(jobId) =>
      var next := Cancelled(q.state, jobId).0;
      q.(state := next, removed := q.removed + (q.state.pending - next.pending))
    case WorkerFinish(w) =>
      q.(state := Finished(q.state, q.workers[w].jobId), workers := q.workers[w := q.workers[w].(finished := true)])
    case WorkerExit(w) => q.(state := Released(q.state), workers := q.workers - {w})
    case WorkerPanic(w) =>
      q.(state := Released(q.state), workers := q.workers - {w}, panicked := q.panicked + {w})
  }

  function Initial(permits: nat): Queue {
    Queue(State(permits, {}, 0, map[], {}), map[], [], [], {}, {})
  }

  ghost predicate IsRun(permits: nat, queues: seq<Queue>, events: seq<Event>) {
    |queues| == |events| + 1 && queues[0] == Initial(permits) &&
    forall i :: 0 <= i < |events| ==> Enabled(queues[i], events[i]) && queues[i + 1] == Step(queues[i], events[i])
  }

  // ---------- the invariant ----------

  ghost predicate NumberedFromOne(s: seq<Entry>) {
    forall i :: 0 <= i < |s| ==> s[i].seqNo == i + 1
  }

  /** Every submission is pending, removed or dispatched, and only one of these. */
  ghost predicate Accounted(q: Queue) {
    NumberedFromOne(q.submissions) && q.state.seqNo == |q.submissions| && NoRepeats(q.dispatched) &&
    (forall e :: e in q.submissions <==> e in q.state.pending || e in q.removed || e in q.dispatched) &&
    (forall e :: e in q.state.pending ==> e !in q.removed && e !in q.dispatched) &&
    forall e :: e in q.removed ==> e !in q.dispatched
  }

  /** Workers and those that panicked carry dispatched jobs. */
  ghost predicate WorkersOk(q: Queue) {
    (forall w :: w in q.workers ==>
       w !in q.panicked && exists e :: e in q.dispatched && e.seqNo == w && e.jobId == q.workers[w].jobId) &&
    forall w :: w in q.panicked ==> exists e :: e in q.dispatched && e.seqNo == w
  }

  /** The worker still holds its registration: it is at work, or it panicked before giving it up. */
  ghost predicate Registered(q: Queue, jobId: nat, token: nat) {
    token in q.panicked || (token in q.workers && q.workers[token] == Worker(jobId, false))
  }

  ghost predicate RunningOk(q: Queue) {
    forall id :: id in q.state.running ==> Registered(q, id, q.state.running[id].token)
  }

  ghost predicate Inv(q: Queue, permits: nat) {
    q.state.permits + |q.workers| == permits && Accounted(q) && WorkersOk(q) && RunningOk(q)
  }

  lemma SubmissionsAreDistinct(q: Queue)
    requires Accounted(q)
    ensures ValidState(q.state)
    ensures forall a, b :: a in q.submissions && b in q.submissions && a.seqNo == b.seqNo ==> a == b
  {
    forall a, b | a in q.submissions && b in q.submissions && a.seqNo == b.seqNo ensures a == b {
      var i :| 0 <= i < |q.submissions| && q.submissions[i] == a;
      var j :| 0 <= j < |q.submissions| && q.submissions[j] == b;
    }
  }

  lemma SubmitKeepsInv(q: Queue, e: Event, permits: nat)
    requires Inv(q, permits) && e.SubmitJob?
    ensures Inv(Step(q, e), permits)
  {
    var q' := Step(q, e);
    var entry := Entry(e.jobId, e.priority, q.state.seqNo + 1, e.kind);
    assert entry !in q.submissions;
    assert forall f :: f in q'.submissions <==> f in q.submissions || f == entry;
    assert forall id :: id in q'.state.running ==> Registered(q, id, q.state.running[id].token);
  }

  lemma DispatchKeepsAccounts(q: Queue, permits: nat)
    requires Inv(q, permits) && Dispatched(q.state).1.Some?
    ensures Accounted(Step(q, DispatchNext)) && WorkersOk(Step(q, DispatchNext))
    ensures Dispatched(q.state).1.value.entry.seqNo !in q.workers
  {
    var q' := Step(q, DispatchNext);
    var entry := Dispatched(q.state).1.value.entry;
    SubmissionsAreDistinct(q);
    assert entry in q.state.pending;
    assert forall f :: f in q'.dispatched <==> f in q.dispatched || f == entry;
    forall f | f in q.dispatched ensures f.seqNo != entry.seqNo {
      assert f in q.submissions && entry in q.submissions;
    }
    assert q'.dispatched[|q.dispatched|] == entry;
    forall w | w in q'.workers
      ensures w !in q'.panicked && exists e :: e in q'.dispatched && e.seqNo == w && e.jobId == q'.workers[w].jobId
    {
      if w == entry.seqNo {
        assert entry in q'.dispatched;
      } else {
        var f :| f in q.dispatched && f.seqNo == w && f.jobId == q.workers[w].jobId;
        assert f in q'.dispatched;
      }
    }
    forall w | w in q'.panicked ensures exists e :: e in q'.dispatched && e.seqNo == w {
      var f :| f in q.dispatched && f.seqNo == w;
      assert f in q'.dispatched;
    }
  }

  lemma DispatchKeepsRunning(q: Queue)
    requires RunningOk(q) && Dispatched(q.state).1.Some?
    requires Dispatched(q.state).1.value.entry.seqNo !in q.workers
    ensures RunningOk(Step(q, DispatchNext))
  {
    var q' := Step(q, DispatchNext);
    var entry := Dispatched(q.state).1.value.entry;
    forall id | id in q'.state.running ensures Registered(q', id, q'.state.running[id].token) {
      if id != entry.jobId { assert Registered(q, id, q.state.running[id].token); }
    }
  }

  lemma DispatchKeepsInv(q: Queue, permits: nat)
    requires Inv(q, permits)
    ensures Inv(Step(q, DispatchNext), permits)
  {
    if Dispatched(q.state).1.Some? {
      DispatchKeepsAccounts(q, permits);
      DispatchKeepsRunning(q);
      DispatchTradesPermit(q);
    }
  }

  lemma DispatchTradesPermit(q: Queue)
    requires Dispatched(q.state).1.Some? && Dispatched(q.state).1.value.entry.seqNo !in q.workers
    ensures var q' := Step(q, DispatchNext);
            q'.state.permits + |q'.workers| == q.state.permits + |q.workers|
  {
    var q' := Step(q, DispatchNext);
    assert q'.workers.Keys == q.workers.Keys + {Dispatched(q.state).1.value.entry.seqNo};
    assert |q'.workers| == |q'.workers.Keys| == |q.workers.Keys| + 1;
  }

  lemma CancelKeepsInv(q: Queue, jobId: nat, permits: nat)
    requires Inv(q, permits)
    ensures Inv(Step(q, CancelJob(jobId)), permits)
  {
    var q' := Step(q, CancelJob(jobId));
    forall id | id in q'.state.running ensures Registered(q', id, q'.state.running[id].token) {
      assert Registered(q, id, q.state.running[id].token);
    }
  }

  lemma FinishKeepsInv(q: Queue, w: nat, permits: nat)
    requires Inv(q, permits) && Enabled(q, WorkerFinish(w))
    ensures Inv(Step(q, WorkerFinish(w)), permits)
  {
    var q' := Step(q, WorkerFinish(w));
    assert q'.workers.Keys == q.workers.Keys;
    assert |q'.workers| == |q'.workers.Keys| == |q.workers.Keys| == |q.workers|;
    forall id | id in q'.state.running ensures Registered(q', id, q'.state.running[id].token) {
      assert Registered(q, id, q.state.running[id].token);
    }
  }

  lemma EndKeepsInv(q: Queue, e: Event, permits: nat)
    requires Inv(q, permits) && Enabled(q, e) && (e.WorkerExit? || e.WorkerPanic?)
    ensures Inv(Step(q, e), permits)
  {
    var q' := Step(q, e);
    assert q'.workers.Keys == q.workers.Keys - {e.worker};
    assert |q'.workers| == |q'.workers.Keys| == |q.workers.Keys| - 1;
    forall id | id in q'.state.running ensures Registered(q', id, q'.state.running[id].token) {
      assert Registered(q, id, q.state.running[id].token);
    }
  }

  lemma StepKeepsInv(q: Queue, e: Event, permits: nat)
    requires Inv(q, permits) && Enabled(q, e)
    ensures Inv(Step(q, e), permits)
  {
    match e
    case SubmitJob(_, _, _) => SubmitKeepsInv(q, e, permits);
    case DispatchNext => DispatchKeepsInv(q, permits);
    case CancelJob(jobId) => CancelKeepsInv(q, jobId, permits);
    case WorkerFinish(w) => FinishKeepsInv(q, w, permits);
    case _ => EndKeepsInv(q, e, permits);
  }

  lemma {:induction false} RunKeepsInv(permits: nat, queues: seq<Queue>, events: seq<Event>, n: nat)
    requires IsRun(permits, queues, events) && n <= |events|
    ensures Inv(queues[n], permits)
  {
    if n > 0 {
      RunKeepsInv(permits, queues, events, n - 1);
      StepKeepsInv(queues[n - 1], events[n - 1], permits);
    }
  }
}
