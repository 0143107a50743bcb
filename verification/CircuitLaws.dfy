/** What holds of circuits, the health cache and probe rates over whole runs of the monitor. */
module CircuitLaws {
  import opened Wrappers
  import opened HealthMonitor

  datatype Message = CheckAll(visits: map<nat, Visit>) | Reset(id: nat)

  function Handle(m: Monitor, message: Message, config: CircuitConfig): Monitor {
    match message
    case CheckAll(visits) => Swept(m, visits, config)
    case Reset(id) => WasReset(m, id)
  }

  /** The monitor after any messages, from an empty cache. */
  function After(messages: seq<Message>, config: CircuitConfig): Monitor {
    if messages == [] then Monitor(map[], map[])
    else Handle(After(messages[..|messages| - 1], config), messages[|messages| - 1], config)
  }

  predicate CircuitOk(c: Circuit, config: CircuitConfig) {
    match c.phase
    case Closed => c.failures < config.openThreshold && c.openedAt.None?
    case Open => c.failures >= config.openThreshold && c.openedAt.Some?
    case HalfOpen => false
  }

  /** Open circuits are cached unreachable; any other cached health means a circuit closed without failures. */
  predicate Agrees(m: Monitor, config: CircuitConfig) {
    (forall id :: id in m.circuits ==>
      CircuitOk(m.circuits[id], config) &&
      (m.circuits[id].phase == Open ==> id in m.cache && m.cache[id] == Unreachable)) &&
    forall id :: id in m.cache && m.cache[id] != Unreachable ==> id in m.circuits && m.circuits[id] == NEW
  }

  lemma SweepAgrees(m: Monitor, visits: map<nat, Visit>, config: CircuitConfig)
    requires config.openThreshold >= 1 && Agrees(m, config)
    ensures Agrees(Swept(m, visits, config), config)
  {
  }

  /**
   After every message of any run, no circuit is half-open, closed circuits are below the threshold,
   open ones at or above it with an opening time, and the cache agrees.
   */
  lemma {:induction false} CircuitsAndCacheAgree(messages: seq<Message>, config: CircuitConfig)
    requires config.openThreshold >= 1
    ensures Agrees(After(messages, config), config)
  {
    if messages != [] {
      CircuitsAndCacheAgree(messages[..|messages| - 1], config);
      match messages[|messages| - 1]
      case CheckAll(visits) => SweepAgrees(After(messages[..|messages| - 1], config), visits, config);
      case Reset(_) =>
    }
  }

  // ---------- endpoints ----------

  datatype ClusterHandle = ClusterHandle(flightEndpoint: Option<string>, flightTls: bool)

  predicate IsDelegatable(cache: map<nat, Health>, id: nat) {
    id in cache && (cache[id] == Healthy || cache[id] == Degraded)
  }

  function GetHealthyEndpoint(refs: map<nat, ClusterHandle>, cache: map<nat, Health>, id: nat): Option<(string, bool)> {
    if !IsDelegatable(cache, id) then None
    else if id !in refs then None
    else
      match refs[id].flightEndpoint
      case None => None
      case Some(endpoint) => Some((endpoint, refs[id].flightTls))
  }

  /** Requests are only sent to clusters whose circuit is closed. */
  lemma EndpointsHaveClosedCircuits(messages: seq<Message>, config: CircuitConfig, refs: map<nat, ClusterHandle>, id: nat)
    requires config.openThreshold >= 1
    requires GetHealthyEndpoint(refs, After(messages, config).cache, id).Some?
    ensures var circuits := After(messages, config).circuits;
            id in circuits && circuits[id].phase == Closed && circuits[id].failures == 0
  {
    CircuitsAndCacheAgree(messages, config);
  }

  // ---------- probe rate ----------

  /** The visits a run pays to one cluster, when every probe fails: clock readings never go back. */
  predicate FailingVisits(visits: seq<Visit>) {
    (forall i :: 0 <= i < |visits| ==>
      visits[i].health == Unreachable && visits[i].firstRead <= visits[i].secondRead <= visits[i].recordedAt) &&
    forall i, j :: 0 <= i < j < |visits| ==> visits[i].recordedAt <= visits[j].firstRead
  }

  function CircuitAfter(visits: seq<Visit>, config: CircuitConfig): Circuit {
    if visits == [] then NEW else Visited(CircuitAfter(visits[..|visits| - 1], config), visits[|visits| - 1], config)
  }

  /** When the probes among the visits were let through. */
  function ProbeTimes(visits: seq<Visit>, config: CircuitConfig): seq<nat> {
    if visits == [] then []
    else
      var init, v := visits[..|visits| - 1], visits[|visits| - 1];
      ProbeTimes(init, config) + if Probed(CircuitAfter(init, config), v, config) then [v.secondRead] else []
  }

  /** Times rise, and past the first `threshold` of them each waits at least a cooldown after the one before. */
  ghost predicate Spaced(times: seq<nat>, threshold: nat, cooldown: nat) {
    (forall i, j :: 0 <= i < j < |times| ==> times[i] <= times[j]) &&
    forall i :: 0 < i < |times| && i >= threshold ==> times[i - 1] + cooldown <= times[i]
  }

  /** One failure per probe, and once open the circuit opened no earlier than the last probe. */
  ghost predicate Tracks(c: Circuit, times: seq<nat>, config: CircuitConfig) {
    c.failures == |times| && CircuitOk(c, config) &&
    (c.phase == Open ==> times != [] && times[|times| - 1] <= c.openedAt.value)
  }

  lemma VisitKeepsSpacing(c: Circuit, times: seq<nat>, v: Visit, config: CircuitConfig)
    requires config.openThreshold >= 1 && Tracks(c, times, config) && Spaced(times, config.openThreshold, config.cooldown)
    requires v.health == Unreachable && v.firstRead <= v.secondRead <= v.recordedAt
    requires times != [] ==> times[|times| - 1] <= v.firstRead
    requires c.openedAt.Some? ==> c.openedAt.value <= v.firstRead
    ensures var times' := times + if Probed(c, v, config) then [v.secondRead] else [];
            Spaced(times', config.openThreshold, config.cooldown) && Tracks(Visited(c, v, config), times', config)
  {
  }

  lemma {:induction false} ProbesAreSpaced(visits: seq<Visit>, config: CircuitConfig)
    requires config.openThreshold >= 1 && FailingVisits(visits)
    ensures Spaced(ProbeTimes(visits, config), config.openThreshold, config.cooldown)
    ensures Tracks(CircuitAfter(visits, config), ProbeTimes(visits, config), config)
    ensures forall i :: 0 <= i < |ProbeTimes(visits, config)| ==>
              visits != [] && ProbeTimes(visits, config)[i] <= visits[|visits| - 1].recordedAt
    ensures CircuitAfter(visits, config).openedAt.Some? ==>
              visits != [] && CircuitAfter(visits, config).openedAt.value <= visits[|visits| - 1].recordedAt
  {
    if visits != [] {
      hide Spaced;
      var init, v := visits[..|visits| - 1], visits[|visits| - 1];
      ProbesAreSpaced(init, config);
      if init != [] { assert visits[|init| - 1].recordedAt <= visits[|init|].firstRead; }
      VisitKeepsSpacing(CircuitAfter(init, config), ProbeTimes(init, config), v, config);
    }
  }

  lemma {:induction false} SpacingAddsUp(times: seq<nat>, threshold: nat, cooldown: nat, lo: nat, hi: nat)
    requires Spaced(times, threshold, cooldown) && threshold >= 1
    requires threshold - 1 <= lo <= hi < |times|
    ensures times[lo] + (hi - lo) * cooldown <= times[hi]
    decreases hi - lo
  {
    if lo < hi {
      SpacingAddsUp(times, threshold, cooldown, lo, hi - 1);
      assert (hi - lo) * cooldown == (hi - 1 - lo) * cooldown + cooldown;
    }
  }

  lemma FewerMultiples(a: int, b: int, c: nat)
    requires a * c < b * c
    ensures a < b
  {
  }

  lemma QuotientBounds(n: nat, cooldown: nat, window: nat)
    requires cooldown >= 1 && n * cooldown <= window
    ensures n <= window / cooldown
  {
    var q := window / cooldown;
    assert window < q * cooldown + cooldown == (q + 1) * cooldown;
    FewerMultiples(n, q + 1, cooldown);
  }

  lemma SpacedInWindow(times: seq<nat>, threshold: nat, cooldown: nat, start: nat, window: nat, lo: nat, hi: nat)
    requires threshold >= 1 && cooldown >= 1 && Spaced(times, threshold, cooldown) && lo <= hi <= |times|
    requires forall i :: lo <= i < hi ==> start <= times[i] <= start + window
    ensures hi - lo <= threshold + window / cooldown
  {
    var first: nat := if lo >= threshold - 1 then lo else threshold - 1;
    if first < hi {
      GapsInWindow(times, threshold, cooldown, window, first, hi - 1 - first);
    }
  }

  lemma GapsInWindow(times: seq<nat>, threshold: nat, cooldown: nat, window: nat, first: nat, gaps: nat)
    requires threshold >= 1 && cooldown >= 1 && Spaced(times, threshold, cooldown)
    requires threshold - 1 <= first && first + gaps < |times|
    requires times[first + gaps] <= times[first] + window
    ensures gaps <= window / cooldown
  {
    SpacingAddsUp(times, threshold, cooldown, first, first + gaps);
    assert first + gaps - first == gaps;
    QuotientBounds(gaps, cooldown, window);
  }

  /**
   For a cluster whose probes always fail and whose circuit is not reset, the probes let through in any
   window of length `window` number at most the threshold plus one per full cooldown.
   */
  lemma ProbeRateBound(visits: seq<Visit>, config: CircuitConfig, start: nat, window: nat, lo: nat, hi: nat)
    requires config.openThreshold >= 1 && config.cooldown >= 1 && FailingVisits(visits)
    requires lo <= hi <= |ProbeTimes(visits, config)|
    requires forall i :: lo <= i < hi ==> start <= ProbeTimes(visits, config)[i] <= start + window
    ensures hi - lo <= config.openThreshold + window / config.cooldown
  {
    ProbesAreSpaced(visits, config);
    SpacedInWindow(ProbeTimes(visits, config), config.openThreshold, config.cooldown, start, window, lo, hi);
  }

  /** The visits that sweeps pay to one cluster. */
  function VisitsOf(messages: seq<Message>, id: nat): seq<Visit> {
    if messages == [] then []
    else
      var init, last := messages[..|messages| - 1], messages[|messages| - 1];
      VisitsOf(init, id) + if last.CheckAll? && id in last.visits then [last.visits[id]] else []
  }

  /** Between resets a circuit depends on its own visits alone, so the bound holds cluster by cluster. */
  lemma {:induction false} ClustersAreIndependent(messages: seq<Message>, id: nat, config: CircuitConfig)
    requires forall i :: 0 <= i < |messages| ==> messages[i] != Reset(id)
    ensures CircuitOf(After(messages, config).circuits, id) == CircuitAfter(VisitsOf(messages, id), config)
  {
    if messages != [] {
      var init, last := messages[..|messages| - 1], messages[|messages| - 1];
      ClustersAreIndependent(init, id, config);
      if last.CheckAll? && id in last.visits {
        var visits := VisitsOf(messages, id);
        assert visits[..|visits| - 1] == VisitsOf(init, id);
      } else {
        assert VisitsOf(messages, id) == VisitsOf(init, id);
      }
    }
  }

  /** When the sweeps of a run let probes to one cluster through. */
  function ProbesSent(messages: seq<Message>, id: nat, config: CircuitConfig): seq<nat> {
    if messages == [] then []
    else
      var init, last := messages[..|messages| - 1], messages[|messages| - 1];
      ProbesSent(init, id, config) +
      if last.CheckAll? && id in last.visits && Probed(CircuitOf(After(init, config).circuits, id), last.visits[id], config)
      then [last.visits[id].secondRead] else []
  }

  lemma {:induction false} ProbesSentToVisits(messages: seq<Message>, id: nat, config: CircuitConfig)
    requires forall i :: 0 <= i < |messages| ==> messages[i] != Reset(id)
    ensures ProbesSent(messages, id, config) == ProbeTimes(VisitsOf(messages, id), config)
  {
    hide Probed, After;
    if messages != [] {
      var init, last := messages[..|messages| - 1], messages[|messages| - 1];
      ProbesSentToVisits(init, id, config);
      ClustersAreIndependent(init, id, config);
      if last.CheckAll? && id in last.visits {
        var visits := VisitsOf(messages, id);
        assert visits[..|visits| - 1] == VisitsOf(init, id);
      } else {
        assert VisitsOf(messages, id) == VisitsOf(init, id);
      }
    }
  }

  /**
   In any run of sweeps and resets, a cluster that is never reset and never answers is sent no more probes
   in a window than the threshold plus one per full cooldown, whatever happens to the others.
   */
  lemma ProbeRateBoundOverRuns(
    messages: seq<Message>, id: nat, config: CircuitConfig, start: nat, window: nat, lo: nat, hi: nat)
    requires config.openThreshold >= 1 && config.cooldown >= 1
    requires FailingVisits(VisitsOf(messages, id)) && forall i :: 0 <= i < |messages| ==> messages[i] != Reset(id)
    requires lo <= hi <= |ProbesSent(messages, id, config)|
    requires forall i :: lo <= i < hi ==> start <= ProbesSent(messages, id, config)[i] <= start + window
    ensures hi - lo <= config.openThreshold + window / config.cooldown
  {
    ProbesSentToVisits(messages, id, config);
    ProbeRateBound(VisitsOf(messages, id), config, start, window, lo, hi);
  }
}
