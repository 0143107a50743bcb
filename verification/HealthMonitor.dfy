/** Circuit breakers, the health sweep that drives them, and the cache it writes (health_monitor.rs, routing.rs). */
module HealthMonitor {
  import opened Sequences
  import opened Wrappers

  datatype CircuitPhase = Closed | Open | HalfOpen

  /** The value of one circuit. */
  datatype Circuit = Circuit(phase: CircuitPhase, failures: nat, openedAt: Option<nat>)

  datatype CircuitConfig = CircuitConfig(openThreshold: nat, cooldown: nat)

  datatype Health = Healthy | Degraded | Unreachable | UnknownHealth

  const NEW := Circuit(Closed, 0, None)

  /** `Instant::elapsed`, which never goes negative. */
  function Elapsed(since: nat, now: nat): nat {
    if now >= since then now - since else 0
  }

  predicate Skips(c: Circuit, config: CircuitConfig, now: nat) {
    c.phase == Open && c.openedAt.Some? && Elapsed(c.openedAt.value, now) < config.cooldown
  }

  function Retried(c: Circuit, config: CircuitConfig, now: nat): Circuit {
    if c.phase == Open && c.openedAt.Some? && Elapsed(c.openedAt.value, now) >= config.cooldown
    then c.(phase := HalfOpen) else c
  }

  function Failed(c: Circuit, config: CircuitConfig, now: nat): Circuit {
    if c.failures + 1 >= config.openThreshold then Circuit(Open, c.failures + 1, Some(now))
    else c.(failures := c.failures + 1)
  }

  class CircuitState {
    var phase: CircuitPhase
    var consecutiveFailures: nat
    var openedAt: Option<nat>

    function Value(): Circuit
      reads this
    {
      Circuit(phase, consecutiveFailures, openedAt)
    }

    constructor (c: Circuit)
      ensures Value() == c
    {
      phase, consecutiveFailures, openedAt := c.phase, c.failures, c.openedAt;
    }

    function ShouldSkipProbe(config: CircuitConfig, now: nat): (skip: bool)
      reads this
      ensures skip == Skips(Value(), config, now)
    {
      match phase
      case Closed => false
      case HalfOpen => false
      case Open =>
        match openedAt
        case Some(start) => Elapsed(start, now) < config.cooldown
        case None => false
    }

    method MaybeTransitionToHalfOpen(config: CircuitConfig, now: nat)
      modifies this
      ensures Value() == Retried(old(Value()), config, now)
    {
      if phase == Open && openedAt.Some? && Elapsed(openedAt.value, now) >= config.cooldown {
        phase := HalfOpen;
      }
    }

    method RecordSuccess()
      modifies this
      ensures Value() == NEW
    {
      consecutiveFailures := 0;
      openedAt := None;
      phase := Closed;
    }

    method RecordFailure(config: CircuitConfig, now: nat)
      modifies this
      ensures Value() == Failed(old(Value()), config, now)
    {
      consecutiveFailures := consecutiveFailures + 1;
      if consecutiveFailures >= config.openThreshold {
        phase := Open;
        openedAt := Some(now);
      }
    }
  }

  // ---------- one message ----------

  /** What a sweep meets at one cluster: its two clock readings, the probe's answer, and when that is recorded. */
  datatype Visit = Visit(firstRead: nat, secondRead: nat, health: Health, recordedAt: nat)

  datatype Monitor = Monitor(circuits: map<nat, Circuit>, cache: map<nat, Health>)

  function CircuitOf(circuits: map<nat, Circuit>, id: nat): Circuit {
    if id in circuits then circuits[id] else NEW
  }

  predicate Probed(c: Circuit, v: Visit, config: CircuitConfig) {
    !Skips(Retried(c, config, v.firstRead), config, v.secondRead)
  }

  /** A circuit after its probe's answer is recorded. */
  function Answered(c: Circuit, v: Visit, config: CircuitConfig): Circuit {
    if v.health == Unreachable then Failed(c, config, v.recordedAt) else NEW
  }

  function Visited(c: Circuit, v: Visit, config: CircuitConfig): Circuit {
    var retried := Retried(c, config, v.firstRead);
    if Probed(c, v, config) then Answered(retried, v, config) else retried
  }

  /** A sweep treats every known cluster on its own. */
  function Swept(m: Monitor, visits: map<nat, Visit>, config: CircuitConfig): Monitor {
    Monitor(
      map id | id in m.circuits.Keys + visits.Keys ::
        if id in visits then Visited(CircuitOf(m.circuits, id), visits[id], config) else m.circuits[id],
      map id | id in m.cache.Keys + visits.Keys ::
        if id in visits then
          if Probed(CircuitOf(m.circuits, id), visits[id], config) then visits[id].health else Unreachable
        else m.cache[id])
  }

  function WasReset(m: Monitor, id: nat): Monitor {
    Monitor(if id in m.circuits && m.circuits[id].phase != Closed then m.circuits[id := NEW] else m.circuits,
            m.cache - {id})
  }

  /** The actor. Its map owns the circuits: one is taken out, changed in place and put back. */
  class HealthMonitorActor {
    const config: CircuitConfig
    var circuits: map<nat, Circuit>
    var cache: map<nat, Health>

    ghost function View(): Monitor
      reads this
    {
      Monitor(circuits, cache)
    }

    constructor (config: CircuitConfig)
      ensures this.config == config && View() == Monitor(map[], map[])
    {
      this.config := config;
      circuits, cache := map[], map[];
    }

    /** A cluster's circuit, new if there is none, may go half-open; then it is probed or skipped. */
    method MayRetry(id: nat, visit: Visit) returns (probe: bool)
      modifies this`circuits
      ensures circuits == old(circuits)[id := Retried(CircuitOf(old(circuits), id), config, visit.firstRead)]
      ensures probe == Probed(CircuitOf(old(circuits), id), visit, config)
    {
      var circuit := new CircuitState(CircuitOf(circuits, id));
      circuit.MaybeTransitionToHalfOpen(config, visit.firstRead);
      circuits := circuits[id := circuit.Value()];
      probe := !circuit.ShouldSkipProbe(config, visit.secondRead);
    }

    method Record(id: nat, visit: Visit)
      modifies this`circuits, this`cache
      ensures cache == old(cache)[id := visit.health]
      ensures circuits == old(circuits)[id := Answered(CircuitOf(old(circuits), id), visit, config)]
    {
      cache := cache[id := visit.health];
      var circuit := new CircuitState(CircuitOf(circuits, id));
      if visit.health == Unreachable {
        circuit.RecordFailure(config, visit.recordedAt);
      } else {
        circuit.RecordSuccess();
      }
      circuits := circuits[id := circuit.Value()];
    }

    /** Runs a sweep over the clusters known to the registry, in the order it lists them. */
    method CheckAllClusters(order: seq<nat>, visits: map<nat, Visit>)
      requires NoRepeats(order) && forall id :: id in order <==> id in visits
      modifies this`circuits, this`cache
      ensures View() == Swept(old(View()), visits, config)
    {
      if order == [] {
        assert visits.Keys == {};
        return;
      }
      ghost var before := View();
      var toProbe, skipped := Triage(order, visits);
      ghost var done: set<nat> := {};
      for i := 0 to |toProbe|
        invariant forall id :: id in done <==> id in toProbe[..i]
        invariant circuits == Settled(before.circuits, visits, done, config)
        invariant cache == Cached(before.cache, visits, done)
      {
        var id := toProbe[i];
        assert toProbe[..i + 1] == toProbe[..i] + [id];
        SettledStep(before.circuits, visits, done, id, config);
        CachedStep(before.cache, visits, done, id);
        Record(id, visits[id]);
        done := done + {id};
      }
      assert toProbe[..|toProbe|] == toProbe;
      MarkSkipped(skipped);
      SweepTotal(before, visits, done, (set id | id in skipped), cache, config);
    }

    method Triage(order: seq<nat>, visits: map<nat, Visit>) returns (toProbe: seq<nat>, skipped: seq<nat>)
      requires NoRepeats(order) && forall id :: id in order <==> id in visits
      modifies this`circuits
      ensures circuits == Settled(old(circuits), visits, {}, config)
      ensures NoRepeats(toProbe)
      ensures forall id :: id in toProbe <==> id in visits && Probed(CircuitOf(old(circuits), id), visits[id], config)
      ensures forall id :: id in skipped <==> id in visits && !Probed(CircuitOf(old(circuits), id), visits[id], config)
    {
      toProbe, skipped := [], [];
      ghost var seen: set<nat> := {};
      for i := 0 to |order|
        invariant forall id :: id in seen <==> id in order[..i]
        invariant circuits == Triaged(old(circuits), visits, seen, config)
        invariant NoRepeats(toProbe)
        invariant forall id :: id in toProbe <==> id in seen && Probed(CircuitOf(old(circuits), id), visits[id], config)
        invariant forall id :: id in skipped <==> id in seen && !Probed(CircuitOf(old(circuits), id), visits[id], config)
      {
        var id := order[i];
        assert order[..i + 1] == order[..i] + [id];
        TriagedStep(old(circuits), visits, seen, id, config);
        var probe := MayRetry(id, visits[id]);
        if probe {
          toProbe := toProbe + [id];
        } else {
          skipped := skipped + [id];
        }
        seen := seen + {id};
      }
      assert order[..|order|] == order;
      TriagedAll(old(circuits), visits, seen, config);
    }

    method MarkSkipped(skipped: seq<nat>)
      modifies this`cache
      ensures cache.Keys == old(cache).Keys + set id | id in skipped
      ensures forall id :: id in cache ==> cache[id] == if id in skipped then Unreachable else old(cache)[id]
    {
      for i := 0 to |skipped|
        invariant cache.Keys == old(cache).Keys + set id | id in skipped[..i]
        invariant forall id :: id in cache ==> cache[id] == if id in skipped[..i] then Unreachable else old(cache)[id]
      {
        cache := cache[skipped[i] := Unreachable];
      }
      assert skipped[..|skipped|] == skipped;
    }

    method ResetCircuitBreaker(id: nat)
      modifies this`circuits, this`cache
      ensures View() == WasReset(old(View()), id)
    {
      if id in circuits && circuits[id].phase != Closed {
        circuits := circuits[id := NEW];
      }
      cache := cache - {id};
    }
  }

  /** The circuits once the clusters seen so far have had their chance to go half-open. */
  ghost function Triaged(circuits: map<nat, Circuit>, visits: map<nat, Visit>, seen: set<nat>, config: CircuitConfig)
    : map<nat, Circuit>
  {
    map id | id in circuits.Keys + seen ::
      if id in seen && id in visits then Retried(CircuitOf(circuits, id), config, visits[id].firstRead)
      else CircuitOf(circuits, id)
  }

  /** The circuits once all have been triaged and the probes done so far are recorded. */
  ghost function Settled(circuits: map<nat, Circuit>, visits: map<nat, Visit>, done: set<nat>, config: CircuitConfig)
    : map<nat, Circuit>
  {
    map id | id in circuits.Keys + visits.Keys ::
      if id !in visits then CircuitOf(circuits, id)
      else
        var retried := Retried(CircuitOf(circuits, id), config, visits[id].firstRead);
        if id in done then Answered(retried, visits[id], config) else retried
  }

  ghost function Cached(cache: map<nat, Health>, visits: map<nat, Visit>, done: set<nat>): map<nat, Health>
  {
    map id | id in cache.Keys + (done * visits.Keys) ::
      if id in done && id in visits then visits[id].health else cache[id]
  }

  lemma TriagedStep(circuits: map<nat, Circuit>, visits: map<nat, Visit>, seen: set<nat>, id: nat, config: CircuitConfig)
    requires id in visits && id !in seen
    ensures var now := Triaged(circuits, visits, seen, config);
            now[id := Retried(CircuitOf(now, id), config, visits[id].firstRead)] == Triaged(circuits, visits, seen + {id}, config)
    ensures CircuitOf(Triaged(circuits, visits, seen, config), id) == CircuitOf(circuits, id)
  {
  }

  lemma TriagedAll(circuits: map<nat, Circuit>, visits: map<nat, Visit>, seen: set<nat>, config: CircuitConfig)
    requires seen == visits.Keys
    ensures Triaged(circuits, visits, seen, config) == Settled(circuits, visits, {}, config)
  {
  }

  lemma SettledStep(circuits: map<nat, Circuit>, visits: map<nat, Visit>, done: set<nat>, id: nat, config: CircuitConfig)
    requires id in visits && id !in done
    ensures var now := Settled(circuits, visits, done, config);
            now[id := Answered(CircuitOf(now, id), visits[id], config)] == Settled(circuits, visits, done + {id}, config)
  {
  }

  lemma CachedStep(cache: map<nat, Health>, visits: map<nat, Visit>, done: set<nat>, id: nat)
    requires id in visits && id !in done
    ensures Cached(cache, visits, done)[id := visits[id].health] == Cached(cache, visits, done + {id})
  {
  }

  lemma SettledIsSwept(before: Monitor, visits: map<nat, Visit>, done: set<nat>, config: CircuitConfig)
    requires forall id :: id in done <==> id in visits && Probed(CircuitOf(before.circuits, id), visits[id], config)
    ensures Settled(before.circuits, visits, done, config) == Swept(before, visits, config).circuits
  {
  }

  lemma CacheIsSwept(before: Monitor, visits: map<nat, Visit>, done: set<nat>, skipped: set<nat>,
                     cache: map<nat, Health>, config: CircuitConfig)
    requires forall id :: id in done <==> id in visits && Probed(CircuitOf(before.circuits, id), visits[id], config)
    requires forall id :: id in skipped <==> id in visits && !Probed(CircuitOf(before.circuits, id), visits[id], config)
    requires cache.Keys == Cached(before.cache, visits, done).Keys + skipped
    requires forall id :: id in cache ==>
               cache[id] == if id in skipped then Unreachable else Cached(before.cache, visits, done)[id]
    ensures cache == Swept(before, visits, config).cache
  {
    hide Retried, Answered, Visited, Probed, CircuitOf;
    assert cache.Keys == Swept(before, visits, config).cache.Keys;
  }

  lemma SweepTotal(before: Monitor, visits: map<nat, Visit>, done: set<nat>, skipped: set<nat>,
                   cache: map<nat, Health>, config: CircuitConfig)
    requires forall id :: id in done <==> id in visits && Probed(CircuitOf(before.circuits, id), visits[id], config)
    requires forall id :: id in skipped <==> id in visits && !Probed(CircuitOf(before.circuits, id), visits[id], config)
    requires cache.Keys == Cached(before.cache, visits, done).Keys + skipped
    requires forall id :: id in cache ==>
               cache[id] == if id in skipped then Unreachable else Cached(before.cache, visits, done)[id]
    ensures Monitor(Settled(before.circuits, visits, done, config), cache) == Swept(before, visits, config)
  {
    hide Retried, Answered, Visited, Settled, Swept, Probed;
    SettledIsSwept(before, visits, done, config);
    CacheIsSwept(before, visits, done, skipped, cache, config);
  }
}
