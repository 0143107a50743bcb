/** The append-only provenance log and its filtered, ordered histories (store.rs). */
module ProvenanceLog {
  import opened Sequences
  import opened Wrappers
  import StableSort

  /** An activity is known by its tag and an actor by its subject id. */
  datatype Entry = Entry(id: nat, resource: nat, actor: Option<nat>, tag: string, occurredAt: int)

  datatype HistoryFilter = HistoryFilter(
    activityTag: Option<string>, actor: Option<nat>, fromUnixMs: Option<int>, untilUnixMs: Option<int>)

  predicate Matches(f: HistoryFilter, e: Entry) {
    var tagOk := f.activityTag.None? || e.tag == f.activityTag.value;
    var actorOk := f.actor.None? || e.actor == f.actor;
    var fromOk := f.fromUnixMs.None? || e.occurredAt >= f.fromUnixMs.value;
    var untilOk := f.untilUnixMs.None? || e.occurredAt < f.untilUnixMs.value;
    tagOk && actorOk && fromOk && untilOk
  }

  function Wanted(resource: nat, f: HistoryFilter): Entry -> bool {
    (e: Entry) => e.resource == resource && Matches(f, e)
  }

  function Select(log: seq<Entry>, wanted: Entry -> bool): (r: seq<Entry>)
    ensures forall i :: 0 <= i < |r| ==> wanted(r[i]) && r[i] in log
  {
    if log == [] then []
    else if wanted(log[0]) then [log[0]] + Select(log[1..], wanted)
    else Select(log[1..], wanted)
  }

  function Time(e: Entry): int {
    e.occurredAt
  }

  function HistoryOf(log: seq<Entry>, resource: nat, f: HistoryFilter): seq<Entry> {
    StableSort.Sort(Time, Select(log, Wanted(resource, f)))
  }

  class VecProvenanceStore {
    var entries: seq<Entry>

    constructor ()
      ensures entries == []
    {
      entries := [];
    }

    method Append(e: Entry)
      modifies this
      ensures entries == old(entries) + [e]
    {
      entries := entries + [e];
    }

    method History(resource: nat, f: HistoryFilter) returns (history: seq<Entry>)
      ensures history == HistoryOf(entries, resource, f)
    {
      var matched: seq<Entry> := [];
      ghost var wanted := Wanted(resource, f);
      for i := 0 to |entries|
        invariant matched + Select(entries[i..], wanted) == Select(entries, wanted)
      {
        SelectStep(matched, entries[i..], wanted);
        assert entries[i..][1..] == entries[i + 1..];
        if entries[i].resource == resource && Matches(f, entries[i]) {
          matched := matched + [entries[i]];
        }
      }
      assert matched == Select(entries, wanted);
      history := StableSort.Sort(Time, matched);
    }
  }

  lemma SelectStep(matched: seq<Entry>, log: seq<Entry>, wanted: Entry -> bool)
    requires log != []
    ensures matched + Select(log, wanted) ==
            (if wanted(log[0]) then matched + [log[0]] else matched) + Select(log[1..], wanted)
  {
    assert matched + ([log[0]] + Select(log[1..], wanted)) == (matched + [log[0]]) + Select(log[1..], wanted);
  }

  /** A filter by tag and actor over a window of time, open on either side. */
  function Window(tag: Option<string>, actor: Option<nat>, from: Option<int>, until: Option<int>): HistoryFilter {
    HistoryFilter(tag, actor, from, until)
  }

  predicate AllBefore(s: seq<Entry>, at: int) {
    forall i :: 0 <= i < |s| ==> s[i].occurredAt < at
  }

  predicate NoneBefore(s: seq<Entry>, at: int) {
    forall i :: 0 <= i < |s| ==> s[i].occurredAt >= at
  }

  lemma {:induction false} InsertEarly(e: Entry, a: seq<Entry>, b: seq<Entry>, at: int)
    requires e.occurredAt < at && NoneBefore(b, at)
    ensures StableSort.Insert(Time, e, a + b) == StableSort.Insert(Time, e, a) + b
    decreases |a|
  {
    hide StableSort.Insert, NoneBefore;
    if |a| == 0 {
      assert a + b == b;
      InsertFirst(e, b, at);
    } else {
      InsertEarly(e, a[1..], b, at);
      Regroup([a[0]], a[1..], b);
      assert a == [a[0]] + a[1..];
      InsertHead(e, a[0], a[1..]);
      InsertHead(e, a[0], a[1..] + b);
      Regroup([e], a, b);
      Regroup([a[0]], StableSort.Insert(Time, e, a[1..]), b);
    }
  }

  lemma InsertHead(e: Entry, first: Entry, s: seq<Entry>)
    ensures StableSort.Insert(Time, e, [first] + s) ==
            if Time(e) <= Time(first) then [e] + ([first] + s) else [first] + StableSort.Insert(Time, e, s)
  {
    assert ([first] + s)[1..] == s;
  }

  /** In front of everything that is later. */
  lemma InsertFirst(e: Entry, s: seq<Entry>, at: int)
    requires e.occurredAt < at && NoneBefore(s, at)
    ensures StableSort.Insert(Time, e, s) == [e] + s && StableSort.Insert(Time, e, []) == [e]
  {
  }

  lemma {:induction false} InsertLate(e: Entry, a: seq<Entry>, b: seq<Entry>, at: int)
    requires e.occurredAt >= at && AllBefore(a, at)
    ensures StableSort.Insert(Time, e, a + b) == a + StableSort.Insert(Time, e, b)
    decreases |a|
  {
    hide StableSort.Insert;
    if |a| == 0 {
      assert a + b == b;
      assert a + StableSort.Insert(Time, e, b) == StableSort.Insert(Time, e, b);
    } else {
      InsertLate(e, a[1..], b, at);
      Regroup([a[0]], a[1..], b);
      assert a == [a[0]] + a[1..];
      InsertHead(e, a[0], a[1..] + b);
      Regroup([a[0]], a[1..], StableSort.Insert(Time, e, b));
    }
  }

  lemma SortedMembers(log: seq<Entry>, wanted: Entry -> bool)
    ensures var sorted := StableSort.Sort(Time, Select(log, wanted));
            forall i :: 0 <= i < |sorted| ==> wanted(sorted[i])
  {
    var sorted := StableSort.Sort(Time, Select(log, wanted));
    forall i | 0 <= i < |sorted| ensures wanted(sorted[i]) {
      assert sorted[i] in multiset(sorted);
      assert sorted[i] in Select(log, wanted);
    }
  }

  /** Sorting what is wanted before an instant, then what is wanted from it on, sorts all that is wanted. */
  lemma {:induction false} SortsJoin(log: seq<Entry>, early: Entry -> bool, late: Entry -> bool, both: Entry -> bool, at: int)
    requires forall e :: both(e) <==> early(e) || late(e)
    requires forall e :: (early(e) ==> e.occurredAt < at) && (late(e) ==> e.occurredAt >= at)
    ensures StableSort.Sort(Time, Select(log, early)) + StableSort.Sort(Time, Select(log, late))
         == StableSort.Sort(Time, Select(log, both))
  {
    hide StableSort.Insert, StableSort.Sort, Select;
    if |log| == 0 {
      NothingToSort(log, early);
      NothingToSort(log, late);
      NothingToSort(log, both);
    } else {
      var e, rest := log[0], log[1..];
      SortsJoin(rest, early, late, both, at);
      SortedMembers(rest, early);
      SortedMembers(rest, late);
      SortStep(log, early);
      SortStep(log, late);
      SortStep(log, both);
      InsertBetween(e, StableSort.Sort(Time, Select(rest, early)), StableSort.Sort(Time, Select(rest, late)), at);
    }
  }

  lemma NothingToSort(log: seq<Entry>, wanted: Entry -> bool)
    requires |log| == 0
    ensures StableSort.Sort(Time, Select(log, wanted)) == []
  {
  }

  /** Inserting into two halves split at an instant is inserting into the half the entry belongs to. */
  lemma InsertBetween(e: Entry, a: seq<Entry>, b: seq<Entry>, at: int)
    requires AllBefore(a, at) && NoneBefore(b, at)
    ensures StableSort.Insert(Time, e, a + b) ==
            if e.occurredAt < at then StableSort.Insert(Time, e, a) + b else a + StableSort.Insert(Time, e, b)
  {
    if e.occurredAt < at {
      InsertEarly(e, a, b, at);
    } else {
      InsertLate(e, a, b, at);
    }
  }

  lemma SortStep(log: seq<Entry>, wanted: Entry -> bool)
    requires log != []
    ensures StableSort.Sort(Time, Select(log, wanted)) ==
            if wanted(log[0]) then StableSort.Insert(Time, log[0], StableSort.Sort(Time, Select(log[1..], wanted)))
            else StableSort.Sort(Time, Select(log[1..], wanted))
  {
    assert ([log[0]] + Select(log[1..], wanted))[1..] == Select(log[1..], wanted);
  }

  /**
   Reading the history of one window and then of the next gives the history of both: nothing is lost,
   repeated or reordered at the boundary, whatever order the log was written in.
   */
  lemma HistoriesJoin(
    log: seq<Entry>, resource: nat, tag: Option<string>, actor: Option<nat>, from: Option<int>, middle: int, until: Option<int>)
    requires (from.Some? ==> from.value <= middle) && (until.Some? ==> middle <= until.value)
    ensures HistoryOf(log, resource, Window(tag, actor, from, Some(middle)))
          + HistoryOf(log, resource, Window(tag, actor, Some(middle), until))
         == HistoryOf(log, resource, Window(tag, actor, from, until))
  {
    var early := Wanted(resource, Window(tag, actor, from, Some(middle)));
    var late := Wanted(resource, Window(tag, actor, Some(middle), until));
    SortsJoin(log, early, late, Wanted(resource, Window(tag, actor, from, until)), middle);
  }

  /** The entry belongs to the resource, has the tag and the actor asked for, and falls into the window. */
  predicate Belongs(e: Entry, resource: nat, f: HistoryFilter) {
    e.resource == resource && (f.activityTag.Some? ==> f.activityTag == Some(e.tag)) &&
    (f.actor.Some? ==> f.actor == e.actor) &&
    (f.fromUnixMs.Some? ==> f.fromUnixMs.value <= e.occurredAt) &&
    (f.untilUnixMs.Some? ==> e.occurredAt < f.untilUnixMs.value)
  }

  /** Earlier, or at the same time and appended before. */
  predicate Earlier(log: seq<Entry>, i: nat, j: nat)
    requires i < |log| && j < |log|
  {
    log[i].occurredAt < log[j].occurredAt || (log[i].occurredAt == log[j].occurredAt && i < j)
  }

  /** The entries at these places. */
  predicate AtPlaces(history: seq<Entry>, log: seq<Entry>, places: seq<nat>) {
    |places| == |history| && forall k :: 0 <= k < |places| ==> places[k] < |log| && log[places[k]] == history[k]
  }

  /** The places of the log where a wanted entry is. */
  ghost predicate ArePlaces(log: seq<Entry>, wanted: Entry -> bool, places: seq<nat>) {
    forall i: nat :: i in places <==> i < |log| && wanted(log[i])
  }

  ghost predicate FromEarlyToLate(log: seq<Entry>, places: seq<nat>)
    requires forall k :: 0 <= k < |places| ==> places[k] < |log|
  {
    forall k, l :: 0 <= k < l < |places| ==> Earlier(log, places[k], places[l])
  }

  /** The history lists the wanted entries of the log, each once, from early to late. */
  ghost predicate Lists(history: seq<Entry>, log: seq<Entry>, wanted: Entry -> bool, places: seq<nat>) {
    AtPlaces(history, log, places) && ArePlaces(log, wanted, places) && FromEarlyToLate(log, places)
  }

  /** Shifting all places by one for a new first entry. */
  function Shifted(places: seq<nat>): (r: seq<nat>)
    ensures |r| == |places| && forall k :: 0 <= k < |places| ==> r[k] == places[k] + 1
  {
    seq(|places|, k requires 0 <= k < |places| => places[k] + 1)
  }

  lemma PlaceShifts(places: seq<nat>, i: nat)
    ensures i in Shifted(places) <==> i > 0 && i - 1 in places
  {
    var shifted := Shifted(places);
    if i > 0 && i - 1 in places {
      var k :| 0 <= k < |places| && places[k] == i - 1;
      assert shifted[k] == i;
    }
  }

  lemma ShiftedPlaces(log: seq<Entry>, wanted: Entry -> bool, places: seq<nat>, i: nat)
    requires |log| > 0 && ArePlaces(log[1..], wanted, places)
    ensures i < |log| && wanted(log[i]) <==> (i == 0 && wanted(log[0])) || i in Shifted(places)
  {
    hide Shifted;
    PlaceShifts(places, i);
    if 0 < i < |log| { assert log[i] == log[1..][i - 1]; }
  }

  lemma ShiftedAt(history: seq<Entry>, log: seq<Entry>, places: seq<nat>)
    requires |log| > 0 && AtPlaces(history, log[1..], places) && FromEarlyToLate(log[1..], places)
    ensures AtPlaces(history, log, Shifted(places)) && FromEarlyToLate(log, Shifted(places))
  {
    var shifted := Shifted(places);
    forall k | 0 <= k < |shifted| ensures shifted[k] < |log| && log[shifted[k]] == history[k] {
      assert log[1..][places[k]] == log[places[k] + 1];
    }
    forall k, l | 0 <= k < l < |shifted| ensures Earlier(log, shifted[k], shifted[l]) {
      assert Earlier(log[1..], places[k], places[l]);
    }
  }

  lemma ShiftedLists(history: seq<Entry>, log: seq<Entry>, wanted: Entry -> bool, places: seq<nat>)
    requires |log| > 0 && Lists(history, log[1..], wanted, places) && !wanted(log[0])
    ensures Lists(history, log, wanted, Shifted(places))
  {
    hide Shifted, AtPlaces, FromEarlyToLate;
    ShiftedAt(history, log, places);
    forall i: nat ensures i in Shifted(places) <==> i < |log| && wanted(log[i]) {
      ShiftedPlaces(log, wanted, places, i);
    }
  }

  /** One more element, at this place. */
  function Woven<T>(s: seq<T>, k: nat, x: T): seq<T>
    requires k <= |s|
  {
    s[..k] + ([x] + s[k..])
  }

  lemma WovenAt<T>(s: seq<T>, k: nat, x: T)
    requires k <= |s|
    ensures var w := Woven(s, k, x);
            |w| == |s| + 1 && w[k] == x && (forall l :: 0 <= l < k ==> w[l] == s[l]) &&
            (forall l :: k < l <= |s| ==> w[l] == s[l - 1]) && forall y :: y in w <==> y == x || y in s
  {
    assert s == s[..k] + s[k..];
  }

  lemma WovenBehind<T>(first: T, s: seq<T>, k: nat, x: T)
    requires k <= |s|
    ensures [first] + Woven(s, k, x) == Woven([first] + s, k + 1, x)
  {
    assert ([first] + s)[..k + 1] == [first] + s[..k] && ([first] + s)[k + 1..] == s[k..];
  }

  /** Where `Insert` puts an entry: in front of the first that is not earlier. */
  lemma {:induction false} InsertAt(e: Entry, s: seq<Entry>) returns (k: nat)
    ensures k <= |s| && StableSort.Insert(Time, e, s) == Woven(s, k, e)
    ensures (forall l :: 0 <= l < k ==> s[l].occurredAt < e.occurredAt) && (k < |s| ==> e.occurredAt <= s[k].occurredAt)
  {
    hide StableSort.Insert, Woven;
    if |s| == 0 {
      k := 0;
      InsertInFront(e, s);
    } else {
      var first, rest := s[0], s[1..];
      assert s == [first] + rest;
      InsertHead(e, first, rest);
      if Time(e) <= Time(first) {
        k := 0;
        InsertInFront(e, s);
      } else {
        var l := InsertAt(e, rest);
        k := l + 1;
        WovenBehind(first, rest, l, e);
      }
    }
  }

  lemma InsertInFront(e: Entry, s: seq<Entry>)
    ensures Woven(s, 0, e) == [e] + s && StableSort.Insert(Time, e, []) == [e]
  {
  }

  lemma InsertedLists(history: seq<Entry>, log: seq<Entry>, wanted: Entry -> bool, places: seq<nat>) returns (all: seq<nat>)
    requires |log| > 0 && Lists(history, log[1..], wanted, places) && wanted(log[0])
    ensures Lists(StableSort.Insert(Time, log[0], history), log, wanted, all)
  {
    hide StableSort.Insert, Woven, Shifted, AtPlaces, FromEarlyToLate;
    var k := InsertAt(log[0], history);
    ShiftedAt(history, log, places);
    SameLength(history, log, Shifted(places));
    all := Woven<nat>(Shifted(places), k, 0);
    FirstIsWoven(history, log, Shifted(places), k);
    WovenAt<nat>(Shifted(places), k, 0);
    forall i: nat ensures i in all <==> i < |log| && wanted(log[i]) {
      ShiftedPlaces(log, wanted, places, i);
    }
  }

  lemma SameLength(history: seq<Entry>, log: seq<Entry>, places: seq<nat>)
    requires AtPlaces(history, log, places)
    ensures |places| == |history|
  {
  }

  /** The first entry of the log, put in front of those that are not earlier. */
  lemma FirstIsWoven(history: seq<Entry>, log: seq<Entry>, places: seq<nat>, k: nat)
    requires |log| > 0 && k <= |history| == |places| && AtPlaces(history, log, places) && FromEarlyToLate(log, places)
    requires forall l :: 0 <= l < k ==> history[l].occurredAt < log[0].occurredAt
    requires k < |history| ==> log[0].occurredAt <= history[k].occurredAt
    requires 0 !in places
    ensures var all := Woven<nat>(places, k, 0);
            AtPlaces(Woven(history, k, log[0]), log, all) && FromEarlyToLate(log, all)
  {
    hide Woven;
    var all, whole := Woven<nat>(places, k, 0), Woven(history, k, log[0]);
    WovenAt<nat>(places, k, 0);
    WovenAt(history, k, log[0]);
    forall m | k <= m < |places| ensures Earlier(log, 0, places[m]) {
      assert places[m] in places;
      if k < m { assert Earlier(log, places[k], places[m]); }
    }
    forall l, m | 0 <= l < m < |all| ensures Earlier(log, all[l], all[m]) {
      var a, b := if l < k then l else l - 1, if m < k then m else m - 1;
      if l != k && m != k { assert Earlier(log, places[a], places[b]); }
    }
  }

  lemma {:induction false} SortedPlaces(log: seq<Entry>, wanted: Entry -> bool) returns (places: seq<nat>)
    ensures Lists(StableSort.Sort(Time, Select(log, wanted)), log, wanted, places)
    decreases |log|
  {
    hide Lists, StableSort.Sort, StableSort.Insert, Select;
    if |log| == 0 {
      places := [];
      NothingToSort(log, wanted);
      NothingListed(wanted);
      assert log == [];
    } else {
      var rest := SortedPlaces(log[1..], wanted);
      SortStep(log, wanted);
      var history := StableSort.Sort(Time, Select(log[1..], wanted));
      if wanted(log[0]) {
        places := InsertedLists(history, log, wanted, rest);
      } else {
        places := Shifted(rest);
        ShiftedLists(history, log, wanted, rest);
      }
    }
  }

  lemma NothingListed(wanted: Entry -> bool)
    ensures Lists([], [], wanted, [])
  {
  }

  /**
   A history is made of exactly the entries of the log that belong to it, each once, ordered by time and, within
   an instant, by when they were appended.
   */
  lemma HistoryListsExactly(log: seq<Entry>, resource: nat, f: HistoryFilter) returns (places: seq<nat>)
    ensures Lists(HistoryOf(log, resource, f), log, (e: Entry) => Belongs(e, resource, f), places)
  {
    hide StableSort.Sort, Select;
    places := SortedPlaces(log, Wanted(resource, f));
  }

  /** A history is ordered by time, and entries of one instant keep the order they were appended in. */
  lemma HistoryIsOrderedAndStable(log: seq<Entry>, resource: nat, f: HistoryFilter, at: int)
    ensures StableSort.Ordered(Time, HistoryOf(log, resource, f))
    ensures StableSort.WithKey(Time, at, HistoryOf(log, resource, f))
         == StableSort.WithKey(Time, at, Select(log, Wanted(resource, f)))
  {
    StableSort.SortIsOrdered(Time, Select(log, Wanted(resource, f)));
    StableSort.SortIsStable(Time, Select(log, Wanted(resource, f)), at);
  }
}
