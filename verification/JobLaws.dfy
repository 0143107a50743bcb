/** What every run of the job queue guarantees: permits, jobs, order, and who can be cancelled. */
module JobLaws {
  import opened PriorityRunner
  import opened JobQueue

  /**
   In every reachable state free permits and live workers total the semaphore's permits, and every
   submission is exactly one of pending, removed, or dispatched once.
   */
  lemma PermitsAndJobsAreConserved(permits: nat, queues: seq<Queue>, events: seq<Event>, n: nat)
    requires IsRun(permits, queues, events) && n <= |events|
    ensures queues[n].state.permits + |queues[n].workers| == permits
    ensures Accounted(queues[n])
  {
    RunKeepsInv(permits, queues, events, n);
  }

  /** The step handed out `e`, which comes before everything else that was pending. */
  ghost predicate HandsOutFirst(before: Queue, after: Queue, e: Entry) {
    after.dispatched == before.dispatched + [e] && after.state.pending == before.state.pending - {e} &&
    e in before.state.pending && forall f :: f in before.state.pending && f != e ==> Precedes(e, f)
  }

  /** Every dispatch of a run hands out the first pending job; none is handed out only for want of a permit or a job. */
  lemma DispatchesAreInOrder(permits: nat, queues: seq<Queue>, events: seq<Event>, n: nat)
    requires IsRun(permits, queues, events) && n < |events| && events[n].DispatchNext?
    ensures var before, after := queues[n], queues[n + 1];
            if before.state.permits == 0 || before.state.pending == {} then after == before
            else exists e :: HandsOutFirst(before, after, e)
  {
    RunKeepsInv(permits, queues, events, n);
    SubmissionsAreDistinct(queues[n]);
    var before, after := queues[n], queues[n + 1];
    if before.state.permits > 0 && before.state.pending != {} {
      var e := Top(before.state.pending);
      TopPrecedes(e, before.state.pending);
      assert HandsOutFirst(before, after, e);
    }
  }

  /**
   Every id in the running map belongs to a live worker that has not finished, except when its worker
   panicked: then, and only then, there is no such worker.
   */
  lemma RunningJobsHaveWorkers(permits: nat, queues: seq<Queue>, events: seq<Event>, n: nat, id: nat)
    requires IsRun(permits, queues, events) && n <= |events| && id in queues[n].state.running
    ensures var q := queues[n];
            var token := q.state.running[id].token;
            token in q.workers && q.workers[token] == Worker(id, false) <==> token !in q.panicked
  {
    RunKeepsInv(permits, queues, events, n);
    assert Registered(queues[n], id, queues[n].state.running[id].token);
  }

  /** So many jobs submitted and handed out one after the other, each while the ones before are at work. */
  lemma {:induction false} BusyRun(permits: nat, k: nat) returns (queues: seq<Queue>, events: seq<Event>)
    requires k <= permits
    ensures IsRun(permits, queues, events)
    ensures var last := queues[|events|].state; last.permits == permits - k && last.pending == {}
  {
    if k == 0 {
      queues, events := [Initial(permits)], [];
    } else {
      var before, earlier := BusyRun(permits, k - 1);
      var q := before[|earlier|];
      var submitted := Step(q, SubmitJob(k, 0, 0));
      var dispatched := Step(submitted, DispatchNext);
      OnlyOnePending(submitted, Entry(k, 0, q.state.seqNo + 1, 0));
      queues, events := before + [submitted, dispatched], earlier + [SubmitJob(k, 0, 0), DispatchNext];
      assert events[|earlier|] == SubmitJob(k, 0, 0) && events[|earlier| + 1] == DispatchNext;
      forall i | 0 <= i < |events| ensures Enabled(queues[i], events[i]) && queues[i + 1] == Step(queues[i], events[i]) {
        if i < |earlier| {
          assert queues[i] == before[i] && queues[i + 1] == before[i + 1] && events[i] == earlier[i];
        }
      }
    }
  }

  lemma OnlyOnePending(q: Queue, e: Entry)
    requires q.state.pending == {e} && q.state.permits > 0
    ensures Step(q, DispatchNext).state.permits == q.state.permits - 1 && Step(q, DispatchNext).state.pending == {}
  {
    assert Top(q.state.pending) in q.state.pending;
  }

  /** As many jobs as there are permits can be at work at once. */
  lemma AllPermitsCanBeUsed(permits: nat) returns (queues: seq<Queue>, events: seq<Event>)
    ensures IsRun(permits, queues, events) && |queues[|events|].workers| == permits
  {
    queues, events := BusyRun(permits, permits);
    RunKeepsInv(permits, queues, events, |events|);
  }

  /** An entry of the running map names the job that was dispatched with that token, and its kind. */
  ghost predicate NamesItsJob(q: Queue, id: nat) {
    id in q.state.running ==>
      exists e :: e in q.dispatched && e.seqNo == q.state.running[id].token && e.jobId == id && e.kind == q.state.running[id].kind
  }

  lemma StepNamesJobs(q: Queue, e: Event, id: nat)
    requires Enabled(q, e) && NamesItsJob(q, id)
    ensures NamesItsJob(Step(q, e), id)
  {
    var next := Step(q, e);
    assert forall f :: f in q.dispatched ==> f in next.dispatched;
    if e.DispatchNext? && Dispatched(q.state).1.Some? {
      var entry := Dispatched(q.state).1.value.entry;
      assert next.dispatched[|q.dispatched|] == entry;
    }
  }

  lemma {:induction false} RunningJobsAreDispatched(permits: nat, queues: seq<Queue>, events: seq<Event>, n: nat, id: nat)
    requires IsRun(permits, queues, events) && n <= |events|
    ensures NamesItsJob(queues[n], id)
  {
    if n > 0 {
      RunningJobsAreDispatched(permits, queues, events, n - 1, id);
      StepNamesJobs(queues[n - 1], events[n - 1], id);
    }
  }

  lemma {:induction false} PanicsAreEvents(permits: nat, queues: seq<Queue>, events: seq<Event>, n: nat)
    requires IsRun(permits, queues, events) && n <= |events|
    ensures forall w :: w in queues[n].panicked <==> exists i :: 0 <= i < n && events[i] == WorkerPanic(w)
  {
    if n > 0 {
      PanicsAreEvents(permits, queues, events, n - 1);
    }
  }

  /** It does happen: one permit, one job, and the worker panics. */
  lemma PanicLeavesAGhost() returns (queues: seq<Queue>, events: seq<Event>)
    ensures IsRun(1, queues, events)
    ensures var last := queues[|events|];
            7 in last.state.running && last.workers == map[] && last.state.permits == 1
  {
    events := [SubmitJob(7, 0, 0), DispatchNext, WorkerPanic(1)];
    var entry := Entry(7, 0, 1, 0);
    var q0 := Initial(1);
    var q1 := Step(q0, events[0]);
    assert q1.state.pending == {entry};
    assert Top(q1.state.pending) == entry;
    var q2 := Step(q1, events[1]);
    assert q2.workers == map[1 := Worker(7, false)] && q2.state.running == map[7 := Running(1, 0)];
    var q3 := Step(q2, events[2]);
    queues := [q0, q1, q2, q3];
  }

  /** The worker behind this event is done with this job, or the job is cancelled. */
  predicate Deregisters(q: Queue, e: Event, id: nat) {
    e == CancelJob(id) || (e.WorkerFinish? && e.worker in q.workers && q.workers[e.worker].jobId == id)
  }

  /** An id leaves the running map by being cancelled or by a worker finishing under it, and in no other way. */
  lemma LeavesRunningExactly(q: Queue, e: Event, id: nat)
    requires Enabled(q, e) && id in q.state.running
    ensures id !in Step(q, e).state.running <==> Deregisters(q, e, id)
  {
  }

  /** So what a panicked worker leaves behind stays over any run until one of these happens. */
  lemma {:induction false} GhostStays(permits: nat, queues: seq<Queue>, events: seq<Event>, m: nat, n: nat, id: nat)
    requires IsRun(permits, queues, events) && m <= n <= |events| && id in queues[m].state.running
    requires forall i :: m <= i < n ==> !Deregisters(queues[i], events[i], id)
    ensures id in queues[n].state.running
    decreases n - m
  {
    if m < n {
      GhostStays(permits, queues, events, m, n - 1, id);
      LeavesRunningExactly(queues[n - 1], events[n - 1], id);
    }
  }

  // ---------- cancellation reaches running jobs ----------

  ghost predicate UniqueIds(s: seq<Entry>) {
    forall i, j :: 0 <= i < j < |s| ==> s[i].jobId != s[j].jobId
  }

  /** A worker at work is registered under its job's id, or its token has been signalled. */
  ghost predicate WorkersReachable(q: Queue) {
    forall w :: w in q.workers && !q.workers[w].finished ==>
      w in q.state.cancelled ||
      (q.workers[w].jobId in q.state.running && q.state.running[q.workers[w].jobId].token == w)
  }

  lemma WorkerIdsAreUnique(q: Queue, permits: nat, v: nat, w: nat)
    requires Inv(q, permits) && UniqueIds(q.submissions)
    requires v in q.workers && w in q.workers && q.workers[v].jobId == q.workers[w].jobId
    ensures v == w
  {
    var a :| a in q.dispatched && a.seqNo == v && a.jobId == q.workers[v].jobId;
    var b :| b in q.dispatched && b.seqNo == w && b.jobId == q.workers[w].jobId;
    assert a in q.submissions && b in q.submissions;
    var i :| 0 <= i < |q.submissions| && q.submissions[i] == a;
    var j :| 0 <= j < |q.submissions| && q.submissions[j] == b;
    assert i == j;
  }

  lemma DispatchKeepsReachable(q: Queue, permits: nat)
    requires Inv(q, permits) && WorkersReachable(q) && UniqueIds(q.submissions)
    ensures WorkersReachable(Step(q, DispatchNext))
  {
    hide Inv;
    var q' := Step(q, DispatchNext);
    DispatchKeepsInv(q, permits);
    if Dispatched(q.state).1.Some? {
      var entry := Dispatched(q.state).1.value.entry;
      forall w | w in q'.workers && w != entry.seqNo ensures q'.workers[w].jobId != entry.jobId {
        if q'.workers[w].jobId == entry.jobId { WorkerIdsAreUnique(q', permits, w, entry.seqNo); }
      }
    }
  }

  lemma FinishKeepsReachable(q: Queue, v: nat, permits: nat)
    requires Inv(q, permits) && Enabled(q, WorkerFinish(v)) && WorkersReachable(q) && UniqueIds(q.submissions)
    ensures WorkersReachable(Step(q, WorkerFinish(v)))
  {
    forall w | w in q.workers && w != v ensures q.workers[w].jobId != q.workers[v].jobId {
      if q.workers[w].jobId == q.workers[v].jobId { WorkerIdsAreUnique(q, permits, v, w); }
    }
  }

  lemma CancelKeepsReachable(q: Queue, jobId: nat)
    requires WorkersReachable(q)
    ensures WorkersReachable(Step(q, CancelJob(jobId)))
  {
  }

  lemma StepKeepsReachable(q: Queue, e: Event, permits: nat)
    requires Inv(q, permits) && Enabled(q, e) && WorkersReachable(q) && UniqueIds(q.submissions)
    ensures WorkersReachable(Step(q, e))
  {
    match e
    case SubmitJob(_, _, _) =>
    case DispatchNext => DispatchKeepsReachable(q, permits);
    case CancelJob(jobId) => CancelKeepsReachable(q, jobId);
    case WorkerFinish(w) => FinishKeepsReachable(q, w, permits);
    case _ =>
  }

  lemma {:induction false} SubmissionsGrow(permits: nat, queues: seq<Queue>, events: seq<Event>, m: nat, n: nat)
    requires IsRun(permits, queues, events) && m <= n <= |events|
    ensures queues[m].submissions <= queues[n].submissions
  {
    if m < n {
      SubmissionsGrow(permits, queues, events, m, n - 1);
    }
  }

  /** With each job id submitted once, every worker at work can be cancelled by its id or already has been. */
  lemma {:induction false} RunningJobsAreCancellable(permits: nat, queues: seq<Queue>, events: seq<Event>, n: nat)
    requires IsRun(permits, queues, events) && n <= |events| && UniqueIds(queues[n].submissions)
    ensures WorkersReachable(queues[n])
  {
    if n > 0 {
      SubmissionsGrow(permits, queues, events, n - 1, n);
      assert forall i :: 0 <= i < |queues[n - 1].submissions| ==> queues[n - 1].submissions[i] == queues[n].submissions[i];
      RunningJobsAreCancellable(permits, queues, events, n - 1);
      RunKeepsInv(permits, queues, events, n - 1);
      StepKeepsReachable(queues[n - 1], events[n - 1], permits);
    }
  }
}
