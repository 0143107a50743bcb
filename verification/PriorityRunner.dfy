/** The priority dispatcher: a queue with first-in-first-out ties, permits and cancellation tokens (priority.rs). */
module PriorityRunner {
  import opened Wrappers

  datatype Entry = Entry(jobId: nat, priority: int, seqNo: nat, kind: nat)

  datatype Ordering = Less | Equal | Greater

  function CompareInt(a: int, b: int): Ordering {
    if a < b then Less else if a == b then Equal else Greater
  }

  /** `Ord::cmp`, reversed because the heap pops its greatest entry. */
  function Cmp(a: Entry, b: Entry): Ordering {
    var byPriority := CompareInt(b.priority, a.priority);
    if byPriority == Equal then CompareInt(b.seqNo, a.seqNo) else byPriority
  }

  /** What the heap pops: no entry is greater. */
  predicate IsTop(e: Entry, pending: set<Entry>) {
    e in pending && forall f :: f in pending ==> Cmp(f, e) != Greater
  }

  /** Lower priority first, then earlier submission. */
  predicate Precedes(a: Entry, b: Entry) {
    a.priority < b.priority || (a.priority == b.priority && a.seqNo < b.seqNo)
  }

  predicate DistinctNumbers(pending: set<Entry>) {
    forall a, b :: a in pending && b in pending && a.seqNo == b.seqNo ==> a == b
  }

  lemma TopPrecedes(e: Entry, pending: set<Entry>)
    requires DistinctNumbers(pending)
    ensures IsTop(e, pending) <==> e in pending && forall f :: f in pending && f != e ==> Precedes(e, f)
  {
    if IsTop(e, pending) {
      forall f | f in pending && f != e ensures Precedes(e, f) {
        assert Cmp(f, e) != Greater && f.seqNo != e.seqNo;
      }
    }
  }

  lemma {:induction false} TopExists(pending: set<Entry>) returns (e: Entry)
    requires pending != {}
    ensures IsTop(e, pending)
    decreases |pending|
  {
    var f :| f in pending;
    var rest := pending - {f};
    if rest == {} {
      e := f;
      assert pending == {f};
    } else {
      var g := TopExists(rest);
      e := if Cmp(f, g) == Greater then f else g;
      assert forall h :: h in pending ==> h == f || h in rest;
    }
  }

  ghost function Top(pending: set<Entry>): (e: Entry)
    requires pending != {}
    ensures IsTop(e, pending)
  {
    assert exists e :: IsTop(e, pending) by { var e := TopExists(pending); }
    var e :| IsTop(e, pending);
    e
  }

  /** A running job: the number of its cancellation token, and its kind. */
  datatype Running = Running(token: nat, kind: nat)

  datatype State = State(
    permits: nat, pending: set<Entry>, seqNo: nat, running: map<nat, Running>, cancelled: set<nat>)

  datatype Dispatch = Dispatch(entry: Entry, token: nat)

  datatype CancelOutcome = RemovedFromQueue | SignalledRunning | NotFound

  ghost predicate ValidState(s: State) {
    DistinctNumbers(s.pending) && forall e :: e in s.pending ==> e.seqNo <= s.seqNo
  }

  function Submitted(s: State, jobId: nat, priority: int, kind: nat): State {
    s.(seqNo := s.seqNo + 1, pending := s.pending + {Entry(jobId, priority, s.seqNo + 1, kind)})
  }

  /** One permit is taken for the job; its token carries the submission number. */
  ghost function Dispatched(s: State): (State, Option<Dispatch>) {
    if s.permits == 0 || s.pending == {} then (s, None)
    else
      var e := Top(s.pending);
      (s.(permits := s.permits - 1, pending := s.pending - {e}, running := s.running[e.jobId := Running(e.seqNo, e.kind)]),
       Some(Dispatch(e, e.seqNo)))
  }

  function Cancelled(s: State, jobId: nat): (State, CancelOutcome) {
    if jobId in s.running then
      (s.(running := s.running - {jobId}, cancelled := s.cancelled + {s.running[jobId].token}), SignalledRunning)
    else
      var kept := set e | e in s.pending && e.jobId != jobId;
      (s.(pending := kept), if kept == s.pending then NotFound else RemovedFromQueue)
  }

  function Finished(s: State, jobId: nat): State {
    s.(running := s.running - {jobId})
  }

  /** The permit a dispatch handed out is dropped. */
  function Released(s: State): State {
    s.(permits := s.permits + 1)
  }

  class Semaphore {
    var permits: nat

    constructor (permits: nat)
      ensures this.permits == permits
    {
      this.permits := permits;
    }

    method TryAcquire() returns (acquired: bool)
      modifies this
      ensures acquired == (old(permits) > 0)
      ensures permits == if acquired then old(permits) - 1 else old(permits)
    {
      acquired := permits > 0;
      if acquired {
        permits := permits - 1;
      }
    }

    method Release()
      modifies this
      ensures permits == old(permits) + 1
    {
      permits := permits + 1;
    }
  }

  class PriorityRunner {
    const semaphore: Semaphore
    var pending: set<Entry>
    var seqNo: nat
    var running: map<nat, Running>
    var cancelled: set<nat>

    ghost function View(): State
      reads this, semaphore
    {
      State(semaphore.permits, pending, seqNo, running, cancelled)
    }

    constructor (semaphore: Semaphore)
      ensures this.semaphore == semaphore && ValidState(View())
      ensures View() == State(semaphore.permits, {}, 0, map[], {})
    {
      this.semaphore := semaphore;
      pending, seqNo, running, cancelled := {}, 0, map[], {};
    }

    method Submit(jobId: nat, priority: int, kind: nat)
      modifies this
      ensures View() == Submitted(old(View()), jobId, priority, kind)
    {
      seqNo := seqNo + 1;
      pending := pending + {Entry(jobId, priority, seqNo, kind)};
    }

    method TryDispatch() returns (dispatch: Option<Dispatch>)
      requires ValidState(View())
      modifies this, semaphore
      ensures (View(), dispatch) == Dispatched(old(View()))
    {
      var acquired := semaphore.TryAcquire();
      if !acquired {
        return None;
      }
      if pending == {} {
        semaphore.Release();
        return None;
      }
      TopPrecedes(Top(pending), pending);
      var entry :| IsTop(entry, pending);
      TopPrecedes(entry, pending);
      pending := pending - {entry};
      running := running[entry.jobId := Running(entry.seqNo, entry.kind)];
      return Some(Dispatch(entry, entry.seqNo));
    }

    method Cancel(jobId: nat) returns (outcome: CancelOutcome)
      modifies this
      ensures (View(), outcome) == Cancelled(old(View()), jobId)
    {
      if jobId in running {
        cancelled := cancelled + {running[jobId].token};
        running := running - {jobId};
        return SignalledRunning;
      }
      var drained := pending;
      pending := {};
      var found := false;
      while drained != {}
        invariant semaphore.permits == old(semaphore.permits) && seqNo == old(seqNo)
        invariant running == old(running) && cancelled == old(cancelled)
        invariant drained <= old(pending)
        invariant pending == set e | e in old(pending) - drained && e.jobId != jobId
        invariant found <==> exists e :: e in old(pending) - drained && e.jobId == jobId
        decreases |drained|
      {
        var entry :| entry in drained;
        drained := drained - {entry};
        if entry.jobId == jobId {
          found := true;
        } else {
          pending := pending + {entry};
        }
      }
      ghost var kept := set e | e in old(pending) && e.jobId != jobId;
      assert pending == kept;
      assert found <==> kept != old(pending);
      return if found then RemovedFromQueue else NotFound;
    }

    method Finish(jobId: nat)
      modifies this
      ensures View() == Finished(old(View()), jobId)
    {
      running := running - {jobId};
    }
  }
}
