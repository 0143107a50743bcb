/** Circuits and the health cache told by the probes a cluster was sent, without phases. */
module ProbeHistory {
  import opened Wrappers
  import opened HealthMonitor
  import opened CircuitLaws

  /** How many failures in a row open a circuit; the first one already does when the threshold is zero. */
  function Limit(config: CircuitConfig): nat {
    if config.openThreshold == 0 then 1 else config.openThreshold
  }

  /** The probes to this cluster that failed since one was answered, or since a reset that found the limit reached. */
  ghost function Streak(messages: seq<Message>, id: nat, config: CircuitConfig): nat
    decreases |messages|, 0
  {
    if |messages| == 0 then 0
    else
      var init, last := messages[..|messages| - 1], messages[|messages| - 1];
      match last
      case CheckAll(visits) =>
        if id !in visits || !LetsThrough(init, id, visits[id], config) then Streak(init, id, config)
        else if visits[id].health == Unreachable then Streak(init, id, config) + 1 else 0
      case Reset(other) =>
        if other == id && Streak(init, id, config) >= Limit(config) then 0 else Streak(init, id, config)
  }

  /** When the last failed probe was recorded. */
  ghost function LastFailure(messages: seq<Message>, id: nat, config: CircuitConfig): nat
    decreases |messages|, 0
  {
    if |messages| == 0 then 0
    else
      var init, last := messages[..|messages| - 1], messages[|messages| - 1];
      if last.CheckAll? && id in last.visits && LetsThrough(init, id, last.visits[id], config) &&
         last.visits[id].health == Unreachable
      then last.visits[id].recordedAt else LastFailure(init, id, config)
  }

  /** A sweep probes the cluster while the limit is not reached, and after a full cooldown at either clock reading. */
  ghost predicate LetsThrough(messages: seq<Message>, id: nat, v: Visit, config: CircuitConfig)
    decreases |messages|, 1
  {
    Streak(messages, id, config) < Limit(config) || config.cooldown == 0 ||
    v.firstRead >= LastFailure(messages, id, config) + config.cooldown ||
    v.secondRead >= LastFailure(messages, id, config) + config.cooldown
  }

  /** What the cluster last answered; a cluster that is not probed counts as unreachable. */
  ghost function LastAnswer(messages: seq<Message>, id: nat, config: CircuitConfig): Option<Health>
    decreases |messages|
  {
    if |messages| == 0 then None
    else
      var init, last := messages[..|messages| - 1], messages[|messages| - 1];
      match last
      case CheckAll(visits) =>
        if id !in visits then LastAnswer(init, id, config)
        else Some(if LetsThrough(init, id, visits[id], config) then visits[id].health else Unreachable)
      case Reset(other) => if other == id then None else LastAnswer(init, id, config)
  }

  /** The circuit is open exactly when the limit is reached, since the last failure, and counts the failures. */
  ghost predicate Tells(c: Circuit, streak: nat, lastFailure: nat, config: CircuitConfig) {
    c == if streak >= Limit(config) then Circuit(Open, streak, Some(lastFailure)) else Circuit(Closed, streak, None)
  }

  lemma ProbedWhen(c: Circuit, streak: nat, lastFailure: nat, v: Visit, config: CircuitConfig)
    requires Tells(c, streak, lastFailure, config)
    ensures Probed(c, v, config) <==>
            streak < Limit(config) || config.cooldown == 0 || v.firstRead >= lastFailure + config.cooldown ||
            v.secondRead >= lastFailure + config.cooldown
  {
  }

  lemma VisitTells(c: Circuit, streak: nat, lastFailure: nat, v: Visit, config: CircuitConfig)
    requires Tells(c, streak, lastFailure, config)
    ensures var after := Visited(c, v, config);
            if !Probed(c, v, config) then after == c
            else if v.health == Unreachable then Tells(after, streak + 1, v.recordedAt, config)
            else Tells(after, 0, lastFailure, config)
  {
  }

  /** After any messages a circuit and the cached health are those that the probes sent so far make. */
  lemma {:induction false} CircuitsAreTheirProbes(messages: seq<Message>, id: nat, config: CircuitConfig)
    ensures var m := After(messages, config);
            Tells(CircuitOf(m.circuits, id), Streak(messages, id, config), LastFailure(messages, id, config), config) &&
            (id in m.cache <==> LastAnswer(messages, id, config).Some?) &&
            (id in m.cache ==> LastAnswer(messages, id, config) == Some(m.cache[id]))
    decreases |messages|
  {
    hide Probed, Visited, Tells;
    if messages == [] {
      NewTells(config);
    } else {
      var init, last := messages[..|messages| - 1], messages[|messages| - 1];
      var m := After(init, config);
      var c, streak, failure := CircuitOf(m.circuits, id), Streak(init, id, config), LastFailure(init, id, config);
      CircuitsAreTheirProbes(init, id, config);
      match last
      case CheckAll(visits) =>
        if id in visits {
          ProbedWhen(c, streak, failure, visits[id], config);
          VisitTells(c, streak, failure, visits[id], config);
        }
      case Reset(other) =>
        ResetTells(c, streak, failure, config);
    }
  }

  lemma NewTells(config: CircuitConfig)
    ensures Tells(NEW, 0, 0, config)
  {
  }

  lemma ResetTells(c: Circuit, streak: nat, lastFailure: nat, config: CircuitConfig)
    requires Tells(c, streak, lastFailure, config)
    ensures c.phase != Closed <==> streak >= Limit(config)
    ensures Tells(NEW, 0, lastFailure, config)
  {
  }

  /** A sweep of any run probes a cluster exactly when the limit is not reached or a full cooldown has passed. */
  lemma ProbesExactly(messages: seq<Message>, id: nat, v: Visit, config: CircuitConfig)
    ensures Probed(CircuitOf(After(messages, config).circuits, id), v, config) <==> LetsThrough(messages, id, v, config)
  {
    hide After, Probed;
    CircuitsAreTheirProbes(messages, id, config);
    ProbedWhen(CircuitOf(After(messages, config).circuits, id),
               Streak(messages, id, config), LastFailure(messages, id, config), v, config);
  }

  /** Queries are delegated exactly to the registered endpoints of clusters that last answered healthy or degraded. */
  lemma EndpointsExactly(
    messages: seq<Message>, config: CircuitConfig, refs: map<nat, ClusterHandle>, id: nat, endpoint: string, tls: bool)
    ensures GetHealthyEndpoint(refs, After(messages, config).cache, id) == Some((endpoint, tls)) <==>
            id in refs && refs[id] == ClusterHandle(Some(endpoint), tls) &&
            (LastAnswer(messages, id, config) == Some(Healthy) || LastAnswer(messages, id, config) == Some(Degraded))
  {
    hide After, LastAnswer;
    CircuitsAreTheirProbes(messages, id, config);
  }
}
