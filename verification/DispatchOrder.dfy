/** The order in which a drained queue hands out its jobs. */
module DispatchOrder {
  import opened PriorityRunner
  import StableSort

  ghost predicate InOrder(s: seq<Entry>) {
    forall i, j :: 0 <= i < j < |s| ==> Precedes(s[i], s[j])
  }

  ghost function Elements(s: seq<Entry>): set<Entry> {
    set e | e in s
  }

  /** A set of entries has one listing in dispatch order. */
  lemma {:induction false} OrderIsUnique(a: seq<Entry>, b: seq<Entry>)
    requires InOrder(a) && InOrder(b) && Elements(a) == Elements(b)
    ensures a == b
    decreases |a|
  {
    if a != [] {
      assert a[0] in Elements(b);
    }
    if b != [] {
      assert b[0] in Elements(a);
    }
    if a != [] && b != [] {
      assert a[0] == b[0];
      forall e ensures e in Elements(a[1..]) <==> e in Elements(b[1..]) {
        assert e in Elements(a) <==> e in Elements(b);
        assert e in a[1..] ==> Precedes(a[0], e);
        assert e in b[1..] ==> Precedes(b[0], e);
      }
      OrderIsUnique(a[1..], b[1..]);
      assert a == [a[0]] + a[1..] && b == [b[0]] + b[1..];
    }
  }

  /** The entries handed out when dispatching until none is left. */
  ghost function Drain(pending: set<Entry>): seq<Entry>
    decreases |pending|
  {
    if pending == {} then [] else [Top(pending)] + Drain(pending - {Top(pending)})
  }

  lemma ElementsOfMore(e: Entry, rest: seq<Entry>)
    ensures Elements([e] + rest) == {e} + Elements(rest)
  {
    assert forall f :: f in [e] + rest <==> f == e || f in rest;
  }

  lemma {:induction false} DrainIsInOrder(pending: set<Entry>)
    requires DistinctNumbers(pending)
    ensures InOrder(Drain(pending)) && Elements(Drain(pending)) == pending
    decreases |pending|
  {
    hide Top, Precedes, InOrder, Elements;
    if pending == {} {
      NothingInOrder();
    } else {
      var e := Top(pending);
      TopPrecedes(e, pending);
      DrainIsInOrder(pending - {e});
      var rest := Drain(pending - {e});
      ElementsOfMore(e, rest);
      assert {e} + (pending - {e}) == pending;
      FirstInOrder(e, rest);
    }
  }

  lemma NothingInOrder()
    ensures InOrder([]) && Elements([]) == {}
  {
  }

  lemma FirstInOrder(e: Entry, rest: seq<Entry>)
    requires InOrder(rest) && forall f :: f in Elements(rest) ==> Precedes(e, f)
    ensures InOrder([e] + rest)
  {
    forall j | 0 <= j < |rest| ensures Precedes(e, rest[j]) {
      assert rest[j] in Elements(rest);
    }
  }

  function Without(s: seq<Entry>, jobId: nat): seq<Entry> {
    if s == [] then []
    else (if s[0].jobId == jobId then [] else [s[0]]) + Without(s[1..], jobId)
  }

  lemma {:induction false} WithoutKeepsOrder(s: seq<Entry>, jobId: nat)
    requires InOrder(s)
    ensures InOrder(Without(s, jobId))
    ensures forall e :: e in Without(s, jobId) <==> e in s && e.jobId != jobId
  {
    if s != [] {
      WithoutKeepsOrder(s[1..], jobId);
      var rest := Without(s[1..], jobId);
      forall j | 0 <= j < |rest| ensures Precedes(s[0], rest[j]) {
        assert rest[j] in rest;
      }
    }
  }

  /** Cancelling a queued job takes it out of the dispatch order and moves no other. */
  lemma CancelKeepsTheOrder(s: State, jobId: nat)
    requires ValidState(s) && jobId !in s.running
    ensures Drain(Cancelled(s, jobId).0.pending) == Without(Drain(s.pending), jobId)
  {
    var kept := Cancelled(s, jobId).0.pending;
    DrainIsInOrder(s.pending);
    DrainIsInOrder(kept);
    WithoutKeepsOrder(Drain(s.pending), jobId);
    forall e ensures e in Elements(Without(Drain(s.pending), jobId)) <==> e in kept {
      assert e in Drain(s.pending) <==> e in Elements(Drain(s.pending));
    }
    OrderIsUnique(Drain(kept), Without(Drain(s.pending), jobId));
  }

  /** What a cancelled call answers, and what it leaves alone. */
  lemma CancelAnswersExactly(s: State, jobId: nat)
    ensures var (next, outcome) := Cancelled(s, jobId);
            (outcome == SignalledRunning <==> jobId in s.running) &&
            (outcome == RemovedFromQueue <==> jobId !in s.running && exists e :: e in s.pending && e.jobId == jobId) &&
            next.permits == s.permits && next.seqNo == s.seqNo &&
            (forall id :: id in next.running <==> id in s.running && id != jobId) &&
            (forall id :: id in next.running ==> next.running[id] == s.running[id]) &&
            (forall t :: t in next.cancelled <==> t in s.cancelled || (jobId in s.running && t == s.running[jobId].token)) &&
            forall e :: e in next.pending <==> e in s.pending && (jobId in s.running || e.jobId != jobId)
  {
    var (next, outcome) := Cancelled(s, jobId);
    if jobId !in s.running && next.pending != s.pending {
      var e :| e in s.pending && e !in next.pending;
    }
  }

  // ---------- draining submissions is a stable sort by priority ----------

  function Priority(e: Entry): int {
    e.priority
  }

  /** Listed in submission order. */
  ghost predicate Numbered(s: seq<Entry>) {
    forall i, j :: 0 <= i < j < |s| ==> s[i].seqNo < s[j].seqNo
  }

  lemma {:induction false} InsertKeepsDispatchOrder(x: Entry, s: seq<Entry>)
    requires InOrder(s) && forall i :: 0 <= i < |s| ==> x.seqNo < s[i].seqNo
    ensures InOrder(StableSort.Insert(Priority, x, s))
  {
    if s != [] && Priority(x) > Priority(s[0]) {
      InsertKeepsDispatchOrder(x, s[1..]);
      var rest := StableSort.Insert(Priority, x, s[1..]);
      forall j | 0 <= j < |rest| ensures Precedes(s[0], rest[j]) {
        assert rest[j] in multiset(rest);
        assert rest[j] == x || rest[j] in s[1..];
      }
    }
  }

  lemma {:induction false} StableSortIsDispatchOrder(s: seq<Entry>)
    requires Numbered(s)
    ensures InOrder(StableSort.Sort(Priority, s)) && Elements(StableSort.Sort(Priority, s)) == Elements(s)
  {
    if s != [] {
      StableSortIsDispatchOrder(s[1..]);
      var rest := StableSort.Sort(Priority, s[1..]);
      forall i | 0 <= i < |rest| ensures s[0].seqNo < rest[i].seqNo {
        assert rest[i] in Elements(rest);
        assert rest[i] in s[1..];
      }
      InsertKeepsDispatchOrder(s[0], rest);
    }
    var sorted := StableSort.Sort(Priority, s);
    forall e ensures e in sorted <==> e in s {
      assert e in multiset(sorted) <==> e in multiset(s);
    }
  }

  lemma NumberedAreDistinct(s: seq<Entry>)
    requires Numbered(s)
    ensures DistinctNumbers(Elements(s))
  {
  }

  lemma DrainIsStableSort(s: seq<Entry>)
    requires Numbered(s)
    ensures Drain(Elements(s)) == StableSort.Sort(Priority, s)
  {
    NumberedAreDistinct(s);
    DrainIsInOrder(Elements(s));
    StableSortIsDispatchOrder(s);
    OrderIsUnique(Drain(Elements(s)), StableSort.Sort(Priority, s));
  }

  // ---------- whole submissions followed by a whole drain ----------

  datatype Job = Job(jobId: nat, priority: int, kind: nat)

  function SubmitAll(s: State, jobs: seq<Job>): State
    decreases |jobs|
  {
    if jobs == [] then s
    else
      var j := jobs[|jobs| - 1];
      Submitted(SubmitAll(s, jobs[..|jobs| - 1]), j.jobId, j.priority, j.kind)
  }

  /** The entries the jobs get, numbered from the runner's counter on. */
  function Entries(jobs: seq<Job>, seqNo: nat): (s: seq<Entry>)
    ensures |s| == |jobs|
    ensures forall i :: 0 <= i < |s| ==> s[i] == Entry(jobs[i].jobId, jobs[i].priority, seqNo + i + 1, jobs[i].kind)
  {
    seq(|jobs|, i requires 0 <= i < |jobs| => Entry(jobs[i].jobId, jobs[i].priority, seqNo + i + 1, jobs[i].kind))
  }

  lemma {:induction false} SubmitAllEntries(s: State, jobs: seq<Job>)
    ensures SubmitAll(s, jobs) == s.(seqNo := s.seqNo + |jobs|, pending := s.pending + Elements(Entries(jobs, s.seqNo)))
    decreases |jobs|
  {
    if jobs == [] {
      assert s.pending + Elements(Entries(jobs, s.seqNo)) == s.pending;
    } else {
      var init := jobs[..|jobs| - 1];
      SubmitAllEntries(s, init);
      assert Entries(jobs, s.seqNo) == Entries(init, s.seqNo) + [Entries(jobs, s.seqNo)[|init|]];
    }
  }

  /** The jobs handed out by `n` calls of try-dispatch in a row; a call that yields none ends it. */
  ghost function DispatchMany(s: State, n: nat): seq<Entry>
    decreases n
  {
    if n == 0 then []
    else
      match Dispatched(s)
      case (_, None) => []
      case (next, Some(dispatch)) => [dispatch.entry] + DispatchMany(next, n - 1)
  }

  lemma {:induction false} DispatchManyDrains(s: State, n: nat)
    requires n <= s.permits
    ensures n <= |Drain(s.pending)| ==> DispatchMany(s, n) == Drain(s.pending)[..n]
    ensures n > |Drain(s.pending)| ==> DispatchMany(s, n) == Drain(s.pending)
    decreases n
  {
    if n > 0 && s.pending != {} {
      DispatchManyDrains(Dispatched(s).0, n - 1);
    }
  }

  /** Jobs submitted to an idle runner with enough permits come out stably sorted by priority. */
  lemma UninterruptedDrain(s: State, jobs: seq<Job>)
    requires s.pending == {} && |jobs| <= s.permits
    ensures DispatchMany(SubmitAll(s, jobs), s.permits) == StableSort.Sort(Priority, Entries(jobs, s.seqNo))
  {
    hide Entries, SubmitAll, Elements, Drain, DispatchMany, StableSort.Sort;
    var entries := Entries(jobs, s.seqNo);
    SubmitAllEntries(s, jobs);
    assert {} + Elements(entries) == Elements(entries);
    DrainIsStableSort(entries);
    assert |multiset(StableSort.Sort(Priority, entries))| == |multiset(entries)|;
    DispatchManyDrains(SubmitAll(s, jobs), s.permits);
    var all := Drain(Elements(entries));
    if s.permits == |all| { assert all[..s.permits] == all; }
  }

  /** A call yields nothing exactly when no permit is free or nothing is pending, and then changes nothing. */
  lemma NoDispatch(s: State)
    ensures Dispatched(s).1.None? <==> s.permits == 0 || s.pending == {}
    ensures Dispatched(s).1.None? ==> Dispatched(s).0 == s
    ensures Dispatched(s).1.Some? && ValidState(s) ==>
              var e := Dispatched(s).1.value.entry;
              e in s.pending && forall f :: f in s.pending && f != e ==> Precedes(e, f)
  {
    if Dispatched(s).1.Some? && ValidState(s) {
      TopPrecedes(Top(s.pending), s.pending);
    }
  }
}
