/**
 The registry of local agent instances (agent-registry.ts): registration, heartbeats, unregistration and
 the sweep that evicts silent instances, with the events it emits. The entries are kept in insertion
 order, as the source's map iterates them; listeners only record the events.
 */
module AgentRegistry {
  import opened Prelude

  datatype Agent = Agent(id: string, agentType: string, spiffeUri: string, registeredAt: real, lastHeartbeatAt: real)

  datatype Event = Registered(id: string) | Unregistered(id: string) | Stale(id: string)

  datatype Config = Config(heartbeatIntervalMs: Number, staleFactor: Number, maxEntries: Number)

  predicate AtLeast(x: Number, bound: real) { x.Finite? && x.value >= bound }

  /** What the constructor insists on. Of the factor it only refuses what compares as less than 1. */
  predicate ValidConfig(cfg: Config) {
    && cfg.heartbeatIntervalMs.Finite? && cfg.heartbeatIntervalMs.value > 0.0
    && (AtLeast(cfg.staleFactor, 1.0) || cfg.staleFactor.NaN? || cfg.staleFactor.PlusInfinity?)
    && AtLeast(cfg.maxEntries, 1.0)
  }

  /** `x < bound` on numbers; nothing compares with NaN. */
  predicate Less(x: Number, bound: real) { x.MinusInfinity? || (x.Finite? && x.value < bound) }

  /** The tests of the source's constructor, as it makes them. */
  lemma ValidConfigIff(cfg: Config)
    ensures ValidConfig(cfg)
            <==> && cfg.heartbeatIntervalMs.Finite? && !(cfg.heartbeatIntervalMs.value <= 0.0)
                 && !Less(cfg.staleFactor, 1.0)
                 && cfg.maxEntries.Finite? && !Less(cfg.maxEntries, 1.0)
  {
  }

  /** The silence is not longer than interval times factor; every silence compares that way if the product is not
      finite. */
  predicate Within(cfg: Config, silence: real) {
    cfg.heartbeatIntervalMs.Finite? && cfg.staleFactor.Finite? ==>
      silence <= cfg.heartbeatIntervalMs.value * cfg.staleFactor.value
  }

  predicate Full(cfg: Config, size: nat) { cfg.maxEntries.Finite? && size as real >= cfg.maxEntries.value }

  /** The size is below the next whole number above the capacity: for a whole capacity, at most the capacity. */
  predicate Fits(cfg: Config, size: nat) { cfg.maxEntries.Finite? ==> size as real < cfg.maxEntries.value + 1.0 }

  datatype Registry = Registry(entries: seq<Agent>, events: seq<Event>)

  predicate Live(entries: seq<Agent>, id: string) { exists i :: 0 <= i < |entries| && entries[i].id == id }

  predicate Distinct(entries: seq<Agent>) {
    forall i, j :: 0 <= i < j < |entries| ==> entries[i].id != entries[j].id
  }

  /** The entries with the heartbeat of `id` moved to `t`. */
  function Touch(entries: seq<Agent>, id: string, t: real): seq<Agent> {
    seq(|entries|, i requires 0 <= i < |entries| =>
      if entries[i].id == id then entries[i].(lastHeartbeatAt := t) else entries[i])
  }

  /** The entries that satisfy `p`, in order. */
  function Select(entries: seq<Agent>, p: Agent -> bool): seq<Agent> {
    if entries == [] then []
    else Select(entries[..|entries| - 1], p) + if p(entries[|entries| - 1]) then [entries[|entries| - 1]] else []
  }

  function OtherTest(id: string): Agent -> bool { (a: Agent) => a.id != id }

  function Without(entries: seq<Agent>, id: string): seq<Agent> { Select(entries, OtherTest(id)) }

  predicate IsStale(cfg: Config, a: Agent, t: real) { !Within(cfg, t - a.lastHeartbeatAt) }

  function StaleTest(cfg: Config, t: real): Agent -> bool { a => IsStale(cfg, a, t) }

  function FreshTest(cfg: Config, t: real): Agent -> bool { a => !IsStale(cfg, a, t) }

  function Kept(cfg: Config, entries: seq<Agent>, t: real): seq<Agent> { Select(entries, FreshTest(cfg, t)) }

  function Evicted(cfg: Config, entries: seq<Agent>, t: real): seq<Agent> { Select(entries, StaleTest(cfg, t)) }

  function StaleEvents(evicted: seq<Agent>): seq<Event> {
    seq(|evicted|, i requires 0 <= i < |evicted| => Stale(evicted[i].id))
  }

  datatype Op =
    | Register(t: real, id: string, agentType: string, spiffeUri: string)
    | Heartbeat(t: real, id: string)
    | Unregister(id: string)
    | Sweep(t: real)

  function Next(cfg: Config, r: Registry, op: Op): Registry {
    match op
    case Register(t, id, agentType, uri) =>
      if Live(r.entries, id) then r.(entries := Touch(r.entries, id, t))
      else if Full(cfg, |r.entries|) then r
      else Registry(r.entries + [Agent(id, agentType, uri, t, t)], r.events + [Registered(id)])
    case Heartbeat(t, id) => r.(entries := Touch(r.entries, id, t))
    case Unregister(id) =>
      if Live(r.entries, id) then Registry(Without(r.entries, id), r.events + [Unregistered(id)]) else r
    case Sweep(t) =>
      Registry(Kept(cfg, r.entries, t), r.events + StaleEvents(Evicted(cfg, r.entries, t)))
  }

  class AgentRegistry {
    const cfg: Config
    var entries: seq<Agent>
    var emitted: seq<Event>

    function State(): Registry
      reads this
    {
      Registry(entries, emitted)
    }

    constructor (cfg: Config)
      requires ValidConfig(cfg)
      ensures this.cfg == cfg && State() == Registry([], [])
    {
      this.cfg := cfg;
      entries, emitted := [], [];
    }

    /** The checks of the source's constructor, which throws on a configuration that makes no sense. */
    static method Create(cfg: Config) returns (r: Option<AgentRegistry>)
      ensures r.Some? <==> ValidConfig(cfg)
      ensures r.Some? ==> fresh(r.value) && r.value.cfg == cfg && r.value.State() == Registry([], [])
    {
      if !cfg.heartbeatIntervalMs.Finite? || cfg.heartbeatIntervalMs.value <= 0.0 {
        return None;
      }
      if cfg.staleFactor.MinusInfinity? || (cfg.staleFactor.Finite? && cfg.staleFactor.value < 1.0) {
        return None;
      }
      if !cfg.maxEntries.Finite? || cfg.maxEntries.value < 1.0 {
        return None;
      }
      var registry := new AgentRegistry(cfg);
      return Some(registry);
    }

    /** False when the registry is full. */
    method Register(t: real, id: string, agentType: string, spiffeUri: string) returns (ok: bool)
      modifies this
      ensures State() == Next(cfg, old(State()), Op.Register(t, id, agentType, spiffeUri))
      ensures ok <==> Live(entries, id)
    {
      if Live(entries, id) {
        entries := Touch(entries, id, t);
        assert forall i :: 0 <= i < |entries| ==> entries[i].id == old(entries)[i].id;
        return true;
      }
      if Full(cfg, |entries|) {
        return false;
      }
      entries := entries + [Agent(id, agentType, spiffeUri, t, t)];
      assert entries[|entries| - 1].id == id;
      emitted := emitted + [Registered(id)];
      return true;
    }

    method Heartbeat(t: real, id: string) returns (known: bool)
      modifies this`entries
      ensures State() == Next(cfg, old(State()), Op.Heartbeat(t, id))
      ensures known == Live(old(entries), id)
    {
      known := Live(entries, id);
      entries := Touch(entries, id, t);
    }

    method Unregister(id: string) returns (known: bool)
      modifies this
      ensures State() == Next(cfg, old(State()), Op.Unregister(id))
      ensures known == Live(old(entries), id)
    {
      known := Live(entries, id);
      if known {
        entries := Without(entries, id);
        emitted := emitted + [Unregistered(id)];
      }
    }

    /** Walks over the entries, deleting and reporting the silent ones. */
    method Sweep(t: real) returns (evicted: seq<Agent>)
      modifies this
      ensures State() == Next(cfg, old(State()), Op.Sweep(t))
      ensures evicted == Evicted(cfg, old(entries), t)
    {
      var all := entries;
      var kept: seq<Agent> := [];
      evicted := [];
      for k := 0 to |all|
        invariant all == old(entries)
        invariant kept == Kept(cfg, all[..k], t)
        invariant evicted == Evicted(cfg, all[..k], t)
        invariant emitted == old(emitted) + StaleEvents(evicted)
      {
        var a := all[k];
        assert all[..k + 1][..k] == all[..k];
        if IsStale(cfg, a, t) {
          evicted := evicted + [a];
          emitted := emitted + [Stale(a.id)];
        } else {
          kept := kept + [a];
        }
      }
      assert all[..|all|] == all;
      entries := kept;
    }
  }

  // ---------------------------------------------------------------- events and entries

  /** The live instances, as a listener reconstructs them from the events. */
  function Replay(events: seq<Event>): set<string> {
    if events == [] then {}
    else
      var before := Replay(events[..|events| - 1]);
      match events[|events| - 1]
      case Registered(id) => before + {id}
      case Unregistered(id) => before - {id}
      case Stale(id) => before - {id}
  }

  /** Every event changes something: per instance, registrations and removals alternate, starting with a
      registration. */
  predicate Alternating(events: seq<Event>) {
    forall i :: 0 <= i < |events| ==> (events[i].Registered? <==> events[i].id !in Replay(events[..i]))
  }

  function Ids(entries: seq<Agent>): set<string> { set a | a in entries :: a.id }

  predicate Inv(cfg: Config, r: Registry) {
    Distinct(r.entries) && Fits(cfg, |r.entries|) && Alternating(r.events) && Replay(r.events) == Ids(r.entries)
  }

  lemma LiveIffInIds(entries: seq<Agent>, id: string)
    ensures Live(entries, id) <==> id in Ids(entries)
  {
    if id in Ids(entries) {
      var a :| a in entries && a.id == id;
    }
  }

  lemma EmitOne(events: seq<Event>, e: Event)
    requires Alternating(events) && (e.Registered? <==> e.id !in Replay(events))
    ensures Alternating(events + [e])
    ensures Replay(events + [e]) == if e.Registered? then Replay(events) + {e.id} else Replay(events) - {e.id}
  {
    var more := events + [e];
    assert more[..|events|] == events;
    forall i | 0 <= i < |more|
      ensures more[i].Registered? <==> more[i].id !in Replay(more[..i])
    {
      if i < |events| {
        assert more[..i] == events[..i];
      }
    }
  }

  lemma IdsOfLast(entries: seq<Agent>)
    requires entries != []
    ensures Ids(entries) == Ids(entries[..|entries| - 1]) + {entries[|entries| - 1].id}
    ensures Distinct(entries) ==> entries[|entries| - 1].id !in Ids(entries[..|entries| - 1])
  {
    var front, last := entries[..|entries| - 1], entries[|entries| - 1];
    assert forall a :: a in entries <==> a in front || a == last;
  }

  lemma StaleEventsOfLast(events: seq<Event>, evicted: seq<Agent>)
    requires evicted != []
    ensures events + StaleEvents(evicted)
            == events + StaleEvents(evicted[..|evicted| - 1]) + [Stale(evicted[|evicted| - 1].id)]
  {
  }

  lemma {:induction false} EmitStale(events: seq<Event>, evicted: seq<Agent>)
    requires Alternating(events) && Distinct(evicted) && Ids(evicted) <= Replay(events)
    ensures Alternating(events + StaleEvents(evicted))
    ensures Replay(events + StaleEvents(evicted)) == Replay(events) - Ids(evicted)
  {
    if evicted == [] {
      assert events + StaleEvents(evicted) == events;
    } else {
      var front, last := evicted[..|evicted| - 1], evicted[|evicted| - 1];
      IdsOfLast(evicted);
      assert Distinct(front);
      EmitStale(events, front);
      var before := events + StaleEvents(front);
      assert last.id in Replay(before);
      EmitOne(before, Stale(last.id));
      StaleEventsOfLast(events, evicted);
    }
  }

  lemma {:induction false} SelectMembers(entries: seq<Agent>, p: Agent -> bool, a: Agent)
    ensures a in Select(entries, p) <==> a in entries && p(a)
  {
    if entries != [] {
      var front, last := entries[..|entries| - 1], entries[|entries| - 1];
      SelectMembers(front, p, a);
      assert a in entries <==> a in front || a == last;
    }
  }

  lemma {:induction false} SelectDistinct(entries: seq<Agent>, p: Agent -> bool)
    requires Distinct(entries)
    ensures Distinct(Select(entries, p)) && |Select(entries, p)| <= |entries|
  {
    if entries != [] {
      var front, last := entries[..|entries| - 1], entries[|entries| - 1];
      SelectDistinct(front, p);
      var rest := Select(front, p);
      forall i | 0 <= i < |rest|
        ensures rest[i].id != last.id
      {
        SelectMembers(front, p, rest[i]);
      }
    }
  }

  lemma TouchKeepsIds(entries: seq<Agent>, id: string, t: real)
    ensures Ids(Touch(entries, id, t)) == Ids(entries)
    ensures Distinct(entries) ==> Distinct(Touch(entries, id, t))
  {
    var after := Touch(entries, id, t);
    assert forall i :: 0 <= i < |entries| ==> after[i].id == entries[i].id;
    forall x | x in Ids(entries)
      ensures x in Ids(after)
    {
      var i :| 0 <= i < |entries| && entries[i].id == x;
      assert after[i] in after;
    }
    forall x | x in Ids(after)
      ensures x in Ids(entries)
    {
      var i :| 0 <= i < |after| && after[i].id == x;
      assert entries[i] in entries;
    }
  }

  lemma DistinctMeansById(entries: seq<Agent>, a: Agent, b: Agent)
    requires Distinct(entries) && a in entries && b in entries && a.id == b.id
    ensures a == b
  {
  }

  /** Selecting by a test keeps the ids whose entry passes it. */
  lemma SelectIds(entries: seq<Agent>, p: Agent -> bool, a: Agent)
    requires Distinct(entries) && a in entries
    ensures a.id in Ids(Select(entries, p)) <==> p(a)
  {
    SelectMembers(entries, p, a);
    if b :| b in Select(entries, p) && b.id == a.id {
      SelectMembers(entries, p, b);
      DistinctMeansById(entries, a, b);
    }
  }

  lemma SelectIdsSubset(entries: seq<Agent>, p: Agent -> bool)
    ensures Ids(Select(entries, p)) <= Ids(entries)
  {
    forall b | b in Select(entries, p)
      ensures b.id in Ids(entries)
    {
      SelectMembers(entries, p, b);
    }
  }

  lemma SweepSplitsIds(cfg: Config, entries: seq<Agent>, t: real)
    requires Distinct(entries)
    ensures Ids(Kept(cfg, entries, t)) == Ids(entries) - Ids(Evicted(cfg, entries, t))
    ensures Ids(Evicted(cfg, entries, t)) <= Ids(entries)
  {
    SelectIdsSubset(entries, FreshTest(cfg, t));
    SelectIdsSubset(entries, StaleTest(cfg, t));
    forall x | x in Ids(entries)
      ensures x in Ids(Kept(cfg, entries, t)) <==> x !in Ids(Evicted(cfg, entries, t))
    {
      var a :| a in entries && a.id == x;
      SelectIds(entries, FreshTest(cfg, t), a);
      SelectIds(entries, StaleTest(cfg, t), a);
    }
  }

  lemma RegisterKeepsInv(cfg: Config, r: Registry, a: Agent)
    requires Inv(cfg, r) && !Live(r.entries, a.id) && !Full(cfg, |r.entries|)
    ensures Inv(cfg, Registry(r.entries + [a], r.events + [Registered(a.id)]))
  {
    LiveIffInIds(r.entries, a.id);
    EmitOne(r.events, Registered(a.id));
    var more := r.entries + [a];
    assert more[..|more| - 1] == r.entries;
    IdsOfLast(more);
  }

  lemma UnregisterKeepsInv(cfg: Config, r: Registry, id: string)
    requires Inv(cfg, r) && Live(r.entries, id)
    ensures Inv(cfg, Registry(Without(r.entries, id), r.events + [Unregistered(id)]))
  {
    var p := OtherTest(id);
    LiveIffInIds(r.entries, id);
    SelectDistinct(r.entries, p);
    EmitOne(r.events, Unregistered(id));
    SelectIdsSubset(r.entries, p);
    forall x | x in Ids(r.entries)
      ensures x in Ids(Select(r.entries, p)) <==> x != id
    {
      var a :| a in r.entries && a.id == x;
      SelectIds(r.entries, p, a);
    }
  }

  lemma SweepKeepsInv(cfg: Config, r: Registry, t: real)
    requires Inv(cfg, r)
    ensures Inv(cfg, Registry(Kept(cfg, r.entries, t), r.events + StaleEvents(Evicted(cfg, r.entries, t))))
  {
    SelectDistinct(r.entries, FreshTest(cfg, t));
    SelectDistinct(r.entries, StaleTest(cfg, t));
    SweepSplitsIds(cfg, r.entries, t);
    EmitStale(r.events, Evicted(cfg, r.entries, t));
  }

  lemma NextKeepsInv(cfg: Config, r: Registry, op: Op)
    requires Inv(cfg, r)
    ensures Inv(cfg, Next(cfg, r, op))
  {
    match op
    case Register(t, id, agentType, uri) =>
      if Live(r.entries, id) {
        TouchKeepsIds(r.entries, id, t);
      } else if !Full(cfg, |r.entries|) {
        RegisterKeepsInv(cfg, r, Agent(id, agentType, uri, t, t));
      }
    case Heartbeat(t, id) => TouchKeepsIds(r.entries, id, t);
    case Unregister(id) =>
      if Live(r.entries, id) {
        UnregisterKeepsInv(cfg, r, id);
      }
    case Sweep(t) => SweepKeepsInv(cfg, r, t);
  }

  function Run(cfg: Config, ops: seq<Op>): Registry {
    if ops == [] then Registry([], []) else Next(cfg, Run(cfg, ops[..|ops| - 1]), ops[|ops| - 1])
  }

  /**
   In every run the registry stays below the next whole number above its capacity, the emitted events of each
   instance alternate between registration and removal, and replaying them gives exactly the live instances.
   */
  lemma {:induction false} EveryRunIsConsistent(cfg: Config, ops: seq<Op>)
    requires ValidConfig(cfg)
    ensures Inv(cfg, Run(cfg, ops))
  {
    if ops != [] {
      EveryRunIsConsistent(cfg, ops[..|ops| - 1]);
      NextKeepsInv(cfg, Run(cfg, ops[..|ops| - 1]), ops[|ops| - 1]);
    }
  }

  // ---------------------------------------------------------------- who is live, and with what data

  /** The silence of instance `id` at time `t` is still allowed. */
  predicate HeardFrom(cfg: Config, entries: seq<Agent>, id: string, t: real) {
    exists a :: a in entries && a.id == id && Within(cfg, t - a.lastHeartbeatAt)
  }

  /** Who is live after each operation: a registration adds if there is room, an unregistration removes just that
      one. */
  lemma LiveAfter(cfg: Config, r: Registry, op: Op, id: string)
    requires Distinct(r.entries)
    ensures var before, after := Live(r.entries, id), Live(Next(cfg, r, op).entries, id);
            match op
            case Register(_, x, _, _) => after <==> before || (x == id && !Full(cfg, |r.entries|))
            case Heartbeat(_, _) => after <==> before
            case Unregister(x) => after <==> before && x != id
            case Sweep(t) => after <==> before && HeardFrom(cfg, r.entries, id, t)
  {
    LiveIffInIds(r.entries, id);
    LiveIffInIds(Next(cfg, r, op).entries, id);
    match op
    case Register(t, x, _, _) => LiveAfterRegister(cfg, r, op, id);
    case Heartbeat(t, x) => TouchKeepsIds(r.entries, x, t);
    case Unregister(x) => LiveAfterUnregister(r.entries, x, id);
    case Sweep(t) => LiveAfterSweep(cfg, r.entries, t, id);
  }

  lemma LiveAfterRegister(cfg: Config, r: Registry, op: Op, id: string)
    requires op.Register?
    ensures Live(Next(cfg, r, op).entries, id) <==> Live(r.entries, id) || (op.id == id && !Full(cfg, |r.entries|))
  {
    if Live(r.entries, op.id) {
      TouchKeepsIds(r.entries, op.id, op.t);
      LiveIffInIds(r.entries, id);
      LiveIffInIds(Next(cfg, r, op).entries, id);
    } else if !Full(cfg, |r.entries|) {
      var more := Next(cfg, r, op).entries;
      assert more[|r.entries|].id == op.id;
      assert forall i :: 0 <= i < |r.entries| ==> more[i] == r.entries[i];
    }
  }

  lemma LiveAfterUnregister(entries: seq<Agent>, x: string, id: string)
    requires Distinct(entries)
    ensures Live(if Live(entries, x) then Without(entries, x) else entries, id) <==> Live(entries, id) && x != id
  {
    LiveIffInIds(Without(entries, x), id);
    LiveIffInIds(entries, id);
    SelectIdsSubset(entries, OtherTest(x));
    if a :| a in entries && a.id == id {
      SelectIds(entries, OtherTest(x), a);
    }
  }

  lemma LiveAfterSweep(cfg: Config, entries: seq<Agent>, t: real, id: string)
    requires Distinct(entries)
    ensures Live(Kept(cfg, entries, t), id) <==> Live(entries, id) && HeardFrom(cfg, entries, id, t)
  {
    LiveIffInIds(Kept(cfg, entries, t), id);
    LiveIffInIds(entries, id);
    SelectIdsSubset(entries, FreshTest(cfg, t));
    if a :| a in entries && a.id == id {
      SelectIds(entries, FreshTest(cfg, t), a);
      forall b | b in entries && b.id == id
        ensures b == a
      {
        DistinctMeansById(entries, a, b);
      }
    }
  }

  /** The operation registers the instance with just these data. */
  predicate RegistersAs(op: Op, a: Agent) { op == Register(a.registeredAt, a.id, a.agentType, a.spiffeUri) }

  /** The same data, whatever the heartbeat. */
  predicate SameData(a: Agent, b: Agent) {
    a.id == b.id && a.agentType == b.agentType && a.spiffeUri == b.spiffeUri && a.registeredAt == b.registeredAt
  }

  /** An entry after an operation has the data of an entry before, or was just registered with them. */
  lemma DataAfter(cfg: Config, r: Registry, op: Op, a: Agent)
    requires a in Next(cfg, r, op).entries
    ensures (exists b :: b in r.entries && SameData(a, b)) || (RegistersAs(op, a) && !Live(r.entries, a.id))
  {
    match op
    case Register(t, x, _, _) =>
      if Live(r.entries, x) {
        TouchedFrom(r.entries, x, t, a);
      } else if a in r.entries {
        assert SameData(a, a);
      }
    case Heartbeat(t, x) => TouchedFrom(r.entries, x, t, a);
    case Unregister(x) =>
      SelectMembers(r.entries, OtherTest(x), a);
      assert SameData(a, a);
    case Sweep(t) =>
      SelectMembers(r.entries, FreshTest(cfg, t), a);
      assert SameData(a, a);
  }

  lemma TouchedFrom(entries: seq<Agent>, id: string, t: real, a: Agent)
    requires a in Touch(entries, id, t)
    ensures exists b :: b in entries && SameData(a, b)
  {
    var i :| 0 <= i < |entries| && Touch(entries, id, t)[i] == a;
    assert entries[i] in entries && SameData(a, entries[i]);
  }

  /**
   In every run a live instance has the type, the URI and the time of the registration that made it live: later
   registrations while it is live change none of them.
   */
  lemma {:induction false} DataComeFromRegistration(cfg: Config, ops: seq<Op>, a: Agent) returns (i: nat)
    requires a in Run(cfg, ops).entries
    ensures i < |ops| && RegistersAs(ops[i], a) && !Live(Run(cfg, ops[..i]).entries, a.id)
    ensures forall k :: i < k <= |ops| ==> Live(Run(cfg, ops[..k]).entries, a.id)
  {
    var n := |ops| - 1;
    var front := ops[..n];
    var r := Run(cfg, front);
    DataAfter(cfg, r, ops[n], a);
    assert ops[..|ops|] == ops;
    LiveIffInIds(Run(cfg, ops).entries, a.id);
    if b :| b in r.entries && SameData(a, b) {
      i := DataComeFromRegistration(cfg, front, b);
      assert forall k :: 0 <= k <= n ==> front[..k] == ops[..k];
    } else {
      i := n;
    }
  }

  // ---------------------------------------------------------------- the capacity

  predicate Whole(x: real) { x == x.Floor as real }

  function Name(i: nat): (s: string)
    ensures |s| == i + 1
  {
    if i == 0 then "a" else Name(i - 1) + "a"
  }

  /** `n` instances with different names register. */
  function Fill(n: nat): seq<Op> {
    if n == 0 then [] else Fill(n - 1) + [Register(0.0, Name(n - 1), "type", "uri")]
  }

  /** Every name is at most this long. */
  predicate ShortNames(entries: seq<Agent>, n: nat) { forall i :: 0 <= i < |entries| ==> |entries[i].id| <= n }

  lemma RegisterNextName(cfg: Config, r: Registry)
    requires !Full(cfg, |r.entries|) && ShortNames(r.entries, |r.entries|)
    ensures var r' := Next(cfg, r, Register(0.0, Name(|r.entries|), "type", "uri"));
            |r'.entries| == |r.entries| + 1 && ShortNames(r'.entries, |r'.entries|)
  {
    assert !Live(r.entries, Name(|r.entries|));
  }

  lemma {:induction false} FillRegisters(cfg: Config, n: nat)
    requires cfg.maxEntries.Finite? && Fits(cfg, n)
    ensures |Run(cfg, Fill(n)).entries| == n && ShortNames(Run(cfg, Fill(n)).entries, n)
  {
    if n > 0 {
      FillRegisters(cfg, n - 1);
      var ops := Fill(n);
      assert ops[..|ops| - 1] == Fill(n - 1);
      RegisterNextName(cfg, Run(cfg, Fill(n - 1)));
    }
  }

  lemma WholeBound(size: nat, max: real)
    requires Whole(max) && size as real < max + 1.0
    ensures size as real <= max
  {
    assert size < max.Floor + 1;
  }

  ghost predicate KeepsCapacity(cfg: Config, max: real) { forall ops :: |Run(cfg, ops).entries| as real <= max }

  lemma WholeCapacityHolds(cfg: Config, max: real, ops: seq<Op>)
    requires ValidConfig(cfg) && cfg.maxEntries == Finite(max) && Whole(max)
    ensures |Run(cfg, ops).entries| as real <= max
  {
    EveryRunIsConsistent(cfg, ops);
    WholeBound(|Run(cfg, ops).entries|, max);
  }

  lemma FractionIsExceeded(cfg: Config, max: real) returns (ops: seq<Op>)
    requires ValidConfig(cfg) && cfg.maxEntries == Finite(max) && !Whole(max)
    ensures |Run(cfg, ops).entries| as real > max
  {
    var n := max.Floor + 1;
    ops := Fill(n);
    FillRegisters(cfg, n);
  }

  /** No run holds more entries than the capacity says, if and only if the capacity is a whole number. */
  lemma CapacityHoldsIff(cfg: Config, max: real)
    requires ValidConfig(cfg) && cfg.maxEntries == Finite(max)
    ensures KeepsCapacity(cfg, max) <==> Whole(max)
  {
    if Whole(max) {
      forall ops
        ensures |Run(cfg, ops).entries| as real <= max
      {
        WholeCapacityHolds(cfg, max, ops);
      }
    } else {
      var ops := FractionIsExceeded(cfg, max);
    }
  }

  // ---------------------------------------------------------------- who is evicted

  predicate Beats(op: Op, id: string) { (op.Register? || op.Heartbeat?) && op.id == id }

  /** When `id` last registered or sent a heartbeat, according to the history. */
  function LastBeat(ops: seq<Op>, id: string): real {
    if ops == [] then 0.0
    else if Beats(ops[|ops| - 1], id) then ops[|ops| - 1].t
    else LastBeat(ops[..|ops| - 1], id)
  }

  /** The stored heartbeat of a live instance is the last one in the history. */
  lemma {:induction false} StoredBeatIsLastBeat(cfg: Config, ops: seq<Op>, a: Agent)
    requires a in Run(cfg, ops).entries
    ensures a.lastHeartbeatAt == LastBeat(ops, a.id)
  {
    if ops != [] {
      var front := ops[..|ops| - 1];
      var r := Run(cfg, front);
      forall b | b in r.entries
        ensures b.lastHeartbeatAt == LastBeat(front, b.id)
      {
        StoredBeatIsLastBeat(cfg, front, b);
      }
      match ops[|ops| - 1]
      case Register(_, _, _, _) =>
      case Heartbeat(_, _) =>
      case Unregister(id) => SelectMembers(r.entries, OtherTest(id), a);
      case Sweep(t) => SelectMembers(r.entries, FreshTest(cfg, t), a);
    }
  }

  lemma KeptIff(cfg: Config, entries: seq<Agent>, t: real, a: Agent)
    requires Distinct(entries) && a in entries
    ensures Live(Kept(cfg, entries, t), a.id) <==> !IsStale(cfg, a, t)
  {
    LiveIffInIds(Kept(cfg, entries, t), a.id);
    SelectIds(entries, FreshTest(cfg, t), a);
  }

  /** A sweep removes exactly the instances whose last heartbeat is further back than the threshold. */
  lemma SweepIsExact(cfg: Config, ops: seq<Op>, id: string)
    requires ValidConfig(cfg) && ops != [] && ops[|ops| - 1].Sweep?
    requires Live(Run(cfg, ops[..|ops| - 1]).entries, id)
    ensures Live(Run(cfg, ops).entries, id)
            <==> Within(cfg, ops[|ops| - 1].t - LastBeat(ops[..|ops| - 1], id))
  {
    var front := ops[..|ops| - 1];
    var r := Run(cfg, front);
    EveryRunIsConsistent(cfg, front);
    var i :| 0 <= i < |r.entries| && r.entries[i].id == id;
    StoredBeatIsLastBeat(cfg, front, r.entries[i]);
    KeptIff(cfg, r.entries, ops[|ops| - 1].t, r.entries[i]);
  }

  /** In numbers: with a finite factor an instance survives exactly up to interval times factor, else always. */
  lemma SweepByNumbers(cfg: Config, ops: seq<Op>, id: string)
    requires ValidConfig(cfg) && ops != [] && ops[|ops| - 1].Sweep?
    requires Live(Run(cfg, ops[..|ops| - 1]).entries, id)
    ensures Live(Run(cfg, ops).entries, id)
            <==> (cfg.staleFactor.Finite? ==>
                    ops[|ops| - 1].t - LastBeat(ops[..|ops| - 1], id)
                    <= cfg.heartbeatIntervalMs.value * cfg.staleFactor.value)
  {
    SweepIsExact(cfg, ops, id);
  }

  /** Other operations evict nobody; only its own unregistration removes an instance. */
  lemma OthersKeepLive(cfg: Config, r: Registry, op: Op, id: string)
    requires Live(r.entries, id) && !op.Sweep? && op != Unregister(id)
    ensures Live(Next(cfg, r, op).entries, id)
  {
    LiveIffInIds(r.entries, id);
    LiveIffInIds(Next(cfg, r, op).entries, id);
    match op
    case Register(t, x, _, _) =>
      TouchKeepsIds(r.entries, x, t);
      var i :| 0 <= i < |r.entries| && r.entries[i].id == id;
      if !Live(r.entries, x) && !Full(cfg, |r.entries|) {
        assert Next(cfg, r, op).entries[i].id == id;
      }
    case Heartbeat(t, x) => TouchKeepsIds(r.entries, x, t);
    case Unregister(x) =>
      var a :| a in r.entries && a.id == id;
      SelectMembers(r.entries, OtherTest(x), a);
  }

  /** The clock never runs backwards. */
  predicate Timely(ops: seq<Op>) {
    forall i, j :: 0 <= i < j < |ops| && !ops[i].Unregister? && !ops[j].Unregister? ==> ops[i].t <= ops[j].t
  }

  /** From operation `i` on, every heartbeat of `id` comes at most the threshold after the one before it. */
  predicate SteadyFrom(cfg: Config, ops: seq<Op>, i: nat, id: string) {
    forall k :: i <= k < |ops| && Beats(ops[k], id) ==> Within(cfg, ops[k].t - LastBeat(ops[..k], id))
  }

  lemma {:induction false} NoBeatBetween(ops: seq<Op>, k: nat, j: nat, id: string)
    requires k <= j <= |ops| && forall i :: k <= i < j ==> !Beats(ops[i], id)
    ensures LastBeat(ops[..j], id) == LastBeat(ops[..k], id)
  {
    if k < j {
      assert ops[..j][..j - 1] == ops[..j - 1];
      NoBeatBetween(ops, k, j - 1, id);
    }
  }

  lemma {:induction false} NextBeat(ops: seq<Op>, k: nat, end: nat, id: string) returns (j: nat)
    requires k <= end < |ops| && Beats(ops[end], id)
    ensures k <= j <= end && Beats(ops[j], id) && forall i :: k <= i < j ==> !Beats(ops[i], id)
    decreases end - k
  {
    if Beats(ops[k], id) {
      j := k;
    } else {
      j := NextBeat(ops, k + 1, end, id);
    }
  }

  /** Between two heartbeats that are close enough, a sweep finds the first one recent enough. */
  lemma SweepComesInTime(cfg: Config, ops: seq<Op>, i: nat, k: nat, end: nat, id: string)
    requires Timely(ops) && i <= k < end < |ops| && ops[k].Sweep? && Beats(ops[end], id) && SteadyFrom(cfg, ops, i, id)
    ensures Within(cfg, ops[k].t - LastBeat(ops[..k], id))
  {
    var j := NextBeat(ops, k + 1, end, id);
    NoBeatBetween(ops, k, j, id);
    assert Within(cfg, ops[j].t - LastBeat(ops[..j], id));
  }

  /**
   An instance that is live, does not unregister, and keeps sending heartbeats no further apart than the
   threshold is never evicted: it is live at every moment up to its latest heartbeat.
   */
  lemma {:induction false} SteadyInstanceIsNeverEvicted(cfg: Config, ops: seq<Op>, i: nat, m: nat, end: nat, id: string)
    requires ValidConfig(cfg) && Timely(ops) && i <= m <= end < |ops| && Beats(ops[end], id)
    requires Live(Run(cfg, ops[..i]).entries, id)
    requires SteadyFrom(cfg, ops, i, id)
    requires forall k :: i <= k < end ==> ops[k] != Unregister(id)
    ensures Live(Run(cfg, ops[..m]).entries, id)
    decreases m
  {
    if i < m {
      SteadyInstanceIsNeverEvicted(cfg, ops, i, m - 1, end, id);
      if ops[m - 1].Sweep? {
        SweepComesInTime(cfg, ops, i, m - 1, end, id);
      }
      StepStaysLive(cfg, ops, m, id);
    }
  }

  lemma StepStaysLive(cfg: Config, ops: seq<Op>, m: nat, id: string)
    requires ValidConfig(cfg) && 1 <= m <= |ops| && Live(Run(cfg, ops[..m - 1]).entries, id)
    requires ops[m - 1] != Unregister(id)
    requires ops[m - 1].Sweep? ==> Within(cfg, ops[m - 1].t - LastBeat(ops[..m - 1], id))
    ensures Live(Run(cfg, ops[..m]).entries, id)
  {
    var upto := ops[..m];
    assert upto[..m - 1] == ops[..m - 1] && upto[m - 1] == ops[m - 1];
    if ops[m - 1].Sweep? {
      SweepIsExact(cfg, upto, id);
    } else {
      OthersKeepLive(cfg, Run(cfg, ops[..m - 1]), ops[m - 1], id);
    }
  }
}
