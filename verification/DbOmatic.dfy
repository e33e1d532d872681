/** The daemon that mirrors the message bus into the database: a cache of bus objects, the last
    heartbeat of each agent, and the availability of the hosts in the database. */
module DbOmatic {
  datatype Kind = Node(hostname: string) | Domain(uuid: string, name: string) | OtherClass

  datatype Entry = Entry(agentKey: nat, kind: Kind, timedOut: bool, synced: bool)

  datatype HostState = Available | Unavailable

  /** Heartbeat times are in nanoseconds. */
  datatype Bus = Bus(cache: map<nat, Entry>, heartbeats: map<nat, nat>, hosts: map<string, HostState>)

  const NANOSECONDS: nat := 1000000000
  const TIMEOUT: nat := 30

  // ---------- one agent ----------

  /** A cached object of an agent that is gone.  A host is marked in the database only if it is
      registered there, and the entry counts as synced only then. */
  function Down(e: Entry, hosts: set<string>): Entry {
    if e.timedOut then e
    else
      match e.kind
      case Node(h) => e.(synced := h in hosts, timedOut := true)
      case Domain(_, _) => e.(synced := true, timedOut := true)
      case OtherClass => e.(timedOut := true)
  }

  /** A cached object of an agent that is alive. */
  function Up(e: Entry, hosts: set<string>): Entry {
    if !e.timedOut && e.synced then e
    else
      match e.kind
      case Node(h) => e.(synced := h in hosts, timedOut := false)
      case Domain(_, _) => e.(synced := true, timedOut := false)
      case OtherClass => e.(timedOut := false)
  }

  /** Does marking the agent down (or up) write the row of host `h` on account of this entry? */
  predicate Writes(e: Entry, agent: nat, down: bool, h: string) {
    e.agentKey == agent && e.kind == Node(h) && if down then !e.timedOut else e.timedOut || !e.synced
  }

  predicate Written(cache: map<nat, Entry>, agent: nat, down: bool, h: string) {
    exists k :: k in cache && Writes(cache[k], agent, down, h)
  }

  function MarkEntry(e: Entry, agent: nat, down: bool, hosts: set<string>): Entry {
    if e.agentKey != agent then e else if down then Down(e, hosts) else Up(e, hosts)
  }

  /** `agent_disconnected` and `agent_connected`. */
  function MarkAgent(s: Bus, agent: nat, down: bool): Bus {
    Bus(map k | k in s.cache :: MarkEntry(s.cache[k], agent, down, s.hosts.Keys),
        if down then s.heartbeats - {agent} else s.heartbeats,
        map h | h in s.hosts ::
          if Written(s.cache, agent, down, h) then (if down then Unavailable else Available) else s.hosts[h])
  }

  // ---------- the other callbacks ----------

  /** The same host or the same domain, reported before as another object. */
  predicate SameThing(a: Kind, b: Kind) {
    a == b && !a.OtherClass?
  }

  function Replaced(cache: map<nat, Entry>, kind: Kind): map<nat, Entry> {
    map k | k in cache && !SameThing(cache[k].kind, kind) :: cache[k]
  }

  /** `update_props`: an unknown object replaces older ones of the same host or domain, and a new
      node is marked available; `stateChanged` tells whether a domain's state property changed. */
  function UpdateProps(s: Bus, id: nat, agent: nat, kind: Kind, stateChanged: bool): Bus {
    if id in s.cache then
      if s.cache[id].kind.Domain? && stateChanged then s.(cache := s.cache[id := s.cache[id].(synced := true)]) else s
    else
      var kept := Replaced(s.cache, kind);
      match kind
      case Node(h) =>
        Bus(kept[id := Entry(agent, kind, false, h in s.hosts)], s.heartbeats,
            if h in s.hosts then s.hosts[h := Available] else s.hosts)
      case Domain(_, _) => s.(cache := kept[id := Entry(agent, kind, false, stateChanged)])
      case OtherClass => s.(cache := kept[id := Entry(agent, kind, false, false)])
  }

  /** What an update of an object's properties leaves.  An object not seen before is cached, live, and
      replaces older ones of the same host or domain; a registered host is then available. */
  ghost predicate Reported(s: Bus, id: nat, agent: nat, kind: Kind, stateChanged: bool, t: Bus) {
    t.heartbeats == s.heartbeats && t.hosts.Keys == s.hosts.Keys &&
    if id in s.cache then
      t.hosts == s.hosts && t.cache.Keys == s.cache.Keys &&
      (forall k :: k in s.cache && k != id ==> t.cache[k] == s.cache[k]) &&
      t.cache[id] == s.cache[id].(synced := s.cache[id].synced || (s.cache[id].kind.Domain? && stateChanged))
    else
      id in t.cache && t.cache[id].agentKey == agent && t.cache[id].kind == kind && !t.cache[id].timedOut &&
      (t.cache[id].synced <==> match kind
                               case Node(h) => h in s.hosts
                               case Domain(_, _) => stateChanged
                               case OtherClass => false) &&
      (forall k :: k != id ==> (k in t.cache <==> k in s.cache && (kind.OtherClass? || s.cache[k].kind != kind))) &&
      (forall k :: k in t.cache && k != id ==> t.cache[k] == s.cache[k]) &&
      (forall h :: h in s.hosts ==> t.hosts[h] == if kind == Node(h) then Available else s.hosts[h])
  }

  lemma PropsOutcome(s: Bus, id: nat, agent: nat, kind: Kind, stateChanged: bool)
    ensures Reported(s, id, agent, kind, stateChanged, UpdateProps(s, id, agent, kind, stateChanged))
  {}

  /** What marking an agent down, or up, leaves: its objects are timed out, or live; a host is
      written on account of a node that changes, and nothing else is touched. */
  ghost predicate Marked(s: Bus, agent: nat, down: bool, t: Bus) {
    t.cache.Keys == s.cache.Keys && t.hosts.Keys == s.hosts.Keys &&
    t.heartbeats == (if down then s.heartbeats - {agent} else s.heartbeats) &&
    (forall k :: k in s.cache && s.cache[k].agentKey != agent ==> t.cache[k] == s.cache[k]) &&
    (forall k :: k in s.cache && s.cache[k].agentKey == agent ==>
       t.cache[k] == s.cache[k].(timedOut := down, synced := t.cache[k].synced) &&
       t.cache[k].synced ==
         if (if down then s.cache[k].timedOut else !s.cache[k].timedOut && s.cache[k].synced) then s.cache[k].synced
         else match s.cache[k].kind
              case Node(h) => h in s.hosts
              case Domain(_, _) => true
              case OtherClass => s.cache[k].synced) &&
    (forall h :: h in s.hosts ==>
       t.hosts[h] == if exists k :: k in s.cache && Changes(s.cache[k], agent, down, h)
                     then (if down then Unavailable else Available) else s.hosts[h])
  }

  /** The object is a node of the agent, for this host, that was live before it is marked down, or
      that was timed out or not synced before it is marked up. */
  predicate Changes(e: Entry, agent: nat, down: bool, h: string) {
    e.agentKey == agent && e.kind == Node(h) && (down ==> !e.timedOut) && (!down ==> e.timedOut || !e.synced)
  }

  lemma MarkOutcome(s: Bus, agent: nat, down: bool)
    ensures Marked(s, agent, down, MarkAgent(s, agent, down))
  {
    assert forall k, h :: k in s.cache ==> (Changes(s.cache[k], agent, down, h) <==> Writes(s.cache[k], agent, down, h));
  }

  /** Silent for more than half a minute at time `t`, in seconds. */
  predicate Silent(s: Bus, agent: nat, t: int)
    requires agent in s.heartbeats
  {
    t - s.heartbeats[agent] / NANOSECONDS > TIMEOUT
  }

  /** One pass over the heartbeats, restricted to the agents in `done`: what each cached object
      and each host looks like afterwards, whatever the order of the agents. */
  function SweepSome(s: Bus, t: int, done: set<nat>): Bus
    requires done <= s.heartbeats.Keys
  {
    Bus(map k | k in s.cache :: SweptEntry(s, t, done, s.cache[k]),
        map a | a in s.heartbeats && (a in done ==> !Silent(s, a, t)) :: s.heartbeats[a],
        map h | h in s.hosts :: SweptHost(s, t, done, h))
  }

  function SweptEntry(s: Bus, t: int, done: set<nat>, e: Entry): Entry
    requires done <= s.heartbeats.Keys
  {
    if e.agentKey in done then MarkEntry(e, e.agentKey, Silent(s, e.agentKey, t), s.hosts.Keys) else e
  }

  predicate Touches(s: Bus, t: int, done: set<nat>, k: nat, down: bool, h: string)
    requires done <= s.heartbeats.Keys && k in s.cache
  {
    var a := s.cache[k].agentKey;
    a in done && Silent(s, a, t) == down && Writes(s.cache[k], a, down, h)
  }

  function SweptHost(s: Bus, t: int, done: set<nat>, h: string): HostState
    requires done <= s.heartbeats.Keys && h in s.hosts
  {
    if exists k :: k in s.cache && Touches(s, t, done, k, true, h) then Unavailable
    else if exists k :: k in s.cache && Touches(s, t, done, k, false, h) then Available
    else s.hosts[h]
  }

  function Sweep(s: Bus, t: int): Bus {
    SweepSome(s, t, s.heartbeats.Keys)
  }

  // ---------- the daemon ----------

  class Daemon {
    var cachedObjects: map<nat, Entry>
    var heartbeats: map<nat, nat>
    var hosts: map<string, HostState>

    function State(): Bus
      reads this
    {
      Bus(cachedObjects, heartbeats, hosts)
    }

    /** Startup: the cache is empty and `db_init_cleanup` marks every host unavailable. */
    constructor (hostnames: set<string>)
      ensures State() == Started(hostnames)
      ensures cachedObjects == map[] && heartbeats == map[] && hosts.Keys == hostnames
      ensures forall h :: h in hosts ==> hosts[h] == Unavailable
    {
      cachedObjects, heartbeats := map[], map[];
      hosts := map h | h in hostnames :: Unavailable;
    }

    /** `update_host_state`. */
    method UpdateHostState(key: nat, h: string, state: HostState)
      requires key in cachedObjects && cachedObjects[key].kind == Node(h)
      modifies this
      ensures cachedObjects == old(cachedObjects)[key := old(cachedObjects[key]).(synced := h in hosts)]
      ensures hosts == if h in old(hosts) then old(hosts)[h := state] else old(hosts)
      ensures heartbeats == old(heartbeats)
    {
      if h in hosts {
        hosts := hosts[h := state];
        cachedObjects := cachedObjects[key := cachedObjects[key].(synced := true)];
      } else {
        cachedObjects := cachedObjects[key := cachedObjects[key].(synced := false)];
      }
    }

    /** One cached object of the agent. */
    method MarkObject(key: nat, down: bool)
      requires key in cachedObjects
      modifies this
      ensures cachedObjects == old(cachedObjects)[key :=
                MarkEntry(old(cachedObjects[key]), old(cachedObjects[key]).agentKey, down, old(hosts.Keys))]
      ensures heartbeats == old(heartbeats) && hosts.Keys == old(hosts.Keys)
      ensures forall h :: h in hosts ==>
                hosts[h] == if Writes(old(cachedObjects[key]), old(cachedObjects[key]).agentKey, down, h)
                            then (if down then Unavailable else Available) else old(hosts)[h]
    {
      var e := cachedObjects[key];
      if down {
        if !e.timedOut {
          if e.kind.Node? {
            UpdateHostState(key, e.kind.hostname, Unavailable);
          } else if e.kind.Domain? {
            cachedObjects := cachedObjects[key := e.(synced := true)];
          }
        }
        cachedObjects := cachedObjects[key := cachedObjects[key].(timedOut := true)];
      } else if e.timedOut || !e.synced {
        if e.kind.Node? {
          UpdateHostState(key, e.kind.hostname, Available);
        } else if e.kind.Domain? {
          cachedObjects := cachedObjects[key := e.(synced := true)];
        }
        cachedObjects := cachedObjects[key := cachedObjects[key].(timedOut := false)];
      }
    }

    method MarkObjects(agent: nat, down: bool)
      modifies this
      ensures cachedObjects == MarkAgent(old(State()), agent, down).cache
      ensures hosts == MarkAgent(old(State()), agent, down).hosts
      ensures heartbeats == old(heartbeats)
    {
      ghost var was := State();
      var keys := cachedObjects.Keys;
      while keys != {}
        invariant keys <= was.cache.Keys == cachedObjects.Keys && hosts.Keys == was.hosts.Keys
        invariant heartbeats == was.heartbeats
        invariant forall k :: k in was.cache ==>
          cachedObjects[k] == if k in keys then was.cache[k] else MarkEntry(was.cache[k], agent, down, was.hosts.Keys)
        invariant forall h :: h in was.hosts ==>
          hosts[h] == if exists k :: k in was.cache && k !in keys && Writes(was.cache[k], agent, down, h)
                      then (if down then Unavailable else Available) else was.hosts[h]
        decreases keys
      {
        var key :| key in keys;
        if cachedObjects[key].agentKey == agent {
          MarkObject(key, down);
        }
        keys := keys - {key};
      }
      assert cachedObjects == MarkAgent(was, agent, down).cache;
      assert hosts == MarkAgent(was, agent, down).hosts;
    }

    method AgentDisconnected(agent: nat)
      modifies this
      ensures State() == MarkAgent(old(State()), agent, true)
      ensures Marked(old(State()), agent, true, State())
    {
      MarkOutcome(State(), agent, true);
      MarkObjects(agent, true);
      heartbeats := heartbeats - {agent};
    }

    method AgentConnected(agent: nat)
      modifies this
      ensures State() == MarkAgent(old(State()), agent, false)
      ensures Marked(old(State()), agent, false, State())
    {
      MarkOutcome(State(), agent, false);
      MarkObjects(agent, false);
    }

    method AgentHeartbeat(agent: nat, timestamp: nat)
      modifies this`heartbeats
      ensures State() == old(State()).(heartbeats := old(heartbeats)[agent := timestamp])
    {
      heartbeats := heartbeats[agent := timestamp];
    }

    /** One turn of `check_heartbeats`, visiting the agents in an arbitrary order. */
    method CheckHeartbeats(t: int)
      requires NamesDistinct(cachedObjects)
      modifies this
      ensures State() == Sweep(old(State()), t)
    {
      ghost var was := State();
      var agents := heartbeats.Keys;
      NothingSwept(was, t);
      while agents != {}
        invariant agents <= was.heartbeats.Keys
        invariant State() == SweepSome(was, t, was.heartbeats.Keys - agents)
        decreases agents
      {
        var agent :| agent in agents;
        ghost var done := was.heartbeats.Keys - agents;
        SweepOneMore(was, t, done, agent);
        assert done + {agent} == was.heartbeats.Keys - (agents - {agent});
        if t - heartbeats[agent] / NANOSECONDS > TIMEOUT {
          AgentDisconnected(agent);
        } else {
          AgentConnected(agent);
        }
        agents := agents - {agent};
      }
      assert was.heartbeats.Keys - {} == was.heartbeats.Keys;
    }

    /** An object seen for the first time replaces older ones of the same host or domain. */
    method AddObject(id: nat, agent: nat, kind: Kind)
      requires id !in cachedObjects
      modifies this
      ensures cachedObjects == Replaced(old(cachedObjects), kind)[id := Entry(agent, kind, false,
                if kind.Node? then kind.hostname in hosts else false)]
      ensures hosts == if kind.Node? && kind.hostname in old(hosts) then old(hosts)[kind.hostname := Available]
                       else old(hosts)
      ensures heartbeats == old(heartbeats)
    {
      cachedObjects := Replaced(cachedObjects, kind);
      cachedObjects := cachedObjects[id := Entry(agent, kind, false, false)];
      if kind.Node? {
        UpdateHostState(id, kind.hostname, Available);
      }
    }

    /** `update_props`. */
    method UpdateObjectProps(id: nat, agent: nat, kind: Kind, stateChanged: bool)
      modifies this
      ensures State() == UpdateProps(old(State()), id, agent, kind, stateChanged)
      ensures Reported(old(State()), id, agent, kind, stateChanged, State())
    {
      PropsOutcome(State(), id, agent, kind, stateChanged);
      if id !in cachedObjects {
        AddObject(id, agent, kind);
      }
      if cachedObjects[id].kind.Domain? && stateChanged {
        cachedObjects := cachedObjects[id := cachedObjects[id].(synced := true)];
      }
    }
  }

  // ---------- the sweep does not depend on the order ----------

  /** No two cached nodes have the same hostname, no two domains the same uuid and name. */
  ghost predicate NamesDistinct(cache: map<nat, Entry>) {
    forall j, k :: j in cache && k in cache && SameThing(cache[j].kind, cache[k].kind) ==> j == k
  }

  lemma NothingSwept(s: Bus, t: int)
    ensures SweepSome(s, t, s.heartbeats.Keys - s.heartbeats.Keys) == s
  {}

  lemma HostWrittenByNext(s: Bus, t: int, done: set<nat>, a: nat, h: string, k: nat)
    requires NamesDistinct(s.cache) && done <= s.heartbeats.Keys && a in s.heartbeats && a !in done && h in s.hosts
    requires k in s.cache && Writes(s.cache[k], a, Silent(s, a, t), h)
    ensures SweptHost(s, t, done + {a}, h) == if Silent(s, a, t) then Unavailable else Available
  {}

  lemma HostLeftByNext(s: Bus, t: int, done: set<nat>, a: nat, h: string)
    requires done <= s.heartbeats.Keys && a in s.heartbeats && a !in done && h in s.hosts
    requires !Written(s.cache, a, Silent(s, a, t), h)
    ensures SweptHost(s, t, done + {a}, h) == SweptHost(s, t, done, h)
  {}

  /** The objects of an agent not yet visited are still as they were. */
  lemma UnvisitedWrites(s: Bus, t: int, done: set<nat>, a: nat, down: bool, h: string)
    requires done <= s.heartbeats.Keys && a !in done
    ensures Written(SweepSome(s, t, done).cache, a, down, h) <==> Written(s.cache, a, down, h)
  {
    var part := SweepSome(s, t, done);
    forall k | k in s.cache
      ensures Writes(part.cache[k], a, down, h) <==> Writes(s.cache[k], a, down, h)
    {
      if s.cache[k].agentKey == a {
        assert part.cache[k] == s.cache[k];
      }
    }
  }

  lemma HostsOneMore(s: Bus, t: int, done: set<nat>, a: nat)
    requires NamesDistinct(s.cache) && done <= s.heartbeats.Keys && a in s.heartbeats && a !in done
    ensures SweepSome(s, t, done + {a}).hosts == MarkAgent(SweepSome(s, t, done), a, Silent(s, a, t)).hosts
  {
    var part, down := SweepSome(s, t, done), Silent(s, a, t);
    forall h | h in s.hosts
      ensures SweptHost(s, t, done + {a}, h) ==
              if Written(part.cache, a, down, h) then (if down then Unavailable else Available) else part.hosts[h]
    {
      UnvisitedWrites(s, t, done, a, down, h);
      if Written(s.cache, a, down, h) {
        var k :| k in s.cache && Writes(s.cache[k], a, down, h);
        HostWrittenByNext(s, t, done, a, h, k);
      } else {
        HostLeftByNext(s, t, done, a, h);
      }
    }
  }

  lemma CacheOneMore(s: Bus, t: int, done: set<nat>, a: nat)
    requires done <= s.heartbeats.Keys && a in s.heartbeats && a !in done
    ensures SweepSome(s, t, done + {a}).cache == MarkAgent(SweepSome(s, t, done), a, Silent(s, a, t)).cache
  {}

  /** Marking one more agent continues the sweep. */
  lemma SweepOneMore(s: Bus, t: int, done: set<nat>, a: nat)
    requires NamesDistinct(s.cache) && done <= s.heartbeats.Keys && a in s.heartbeats && a !in done
    ensures var part := SweepSome(s, t, done);
            a in part.heartbeats && part.heartbeats[a] == s.heartbeats[a] &&
            SweepSome(s, t, done + {a}) == MarkAgent(part, a, Silent(s, a, t))
  {
    HostsOneMore(s, t, done, a);
    CacheOneMore(s, t, done, a);
    assert SweepSome(s, t, done + {a}).heartbeats ==
           MarkAgent(SweepSome(s, t, done), a, Silent(s, a, t)).heartbeats;
  }

  // ---------- what every run keeps ----------

  /** A synced node's host is available in the database exactly while the node is not timed out; the
      host of an unsynced one, if it has been registered since, is not. */
  ghost predicate NodeOk(e: Entry, hosts: map<string, HostState>) {
    (e.kind.Node? && e.synced ==>
      e.kind.hostname in hosts && (hosts[e.kind.hostname] == Available <==> !e.timedOut)) &&
    (e.kind.Node? && !e.synced && e.kind.hostname in hosts ==> hosts[e.kind.hostname] == Unavailable)
  }

  ghost predicate Inv(s: Bus) {
    NamesDistinct(s.cache) && forall k :: k in s.cache ==> NodeOk(s.cache[k], s.hosts)
  }

  datatype Event =
    | Props(id: nat, agent: nat, kind: Kind, stateChanged: bool)
    | Heartbeat(agent: nat, timestamp: nat)
    | AgentDeleted(agent: nat)
    | Timer(t: int)
    | HostRegistered(hostname: string)  // by the registration daemon, as unavailable

  function Step(s: Bus, e: Event): Bus {
    match e
    case Props(id, agent, kind, stateChanged) => UpdateProps(s, id, agent, kind, stateChanged)
    case Heartbeat(agent, timestamp) => s.(heartbeats := s.heartbeats[agent := timestamp])
    case AgentDeleted(agent) => MarkAgent(s, agent, true)
    case Timer(t) => Sweep(s, t)
    case HostRegistered(h) => if h in s.hosts then s else s.(hosts := s.hosts[h := Unavailable])
  }

  function Started(hostnames: set<string>): Bus {
    Bus(map[], map[], map h | h in hostnames :: Unavailable)
  }

  function Run(s: Bus, events: seq<Event>): Bus {
    if events == [] then s else Step(Run(s, events[..|events| - 1]), events[|events| - 1])
  }

  lemma MarkKeepsInv(s: Bus, agent: nat, down: bool)
    requires Inv(s)
    ensures Inv(MarkAgent(s, agent, down))
  {
    var t := MarkAgent(s, agent, down);
    forall k | k in t.cache
      ensures NodeOk(t.cache[k], t.hosts)
    {
      var e := s.cache[k];
      assert NodeOk(e, s.hosts);
      if e.kind.Node? && e.kind.hostname in s.hosts {
        if Written(s.cache, agent, down, e.kind.hostname) {
          var j :| j in s.cache && Writes(s.cache[j], agent, down, e.kind.hostname);
          assert j == k;
        } else {
          assert !Writes(e, agent, down, e.kind.hostname);
        }
      }
    }
  }

  lemma PropsKeepInv(s: Bus, id: nat, agent: nat, kind: Kind, stateChanged: bool)
    requires Inv(s)
    ensures Inv(UpdateProps(s, id, agent, kind, stateChanged))
  {}

  /** The sweep is the agents marked one after the other, so it keeps what marking keeps. */
  lemma {:induction false} SweepKeepsInv(s: Bus, t: int, done: set<nat>)
    requires Inv(s) && done <= s.heartbeats.Keys
    ensures Inv(SweepSome(s, t, done))
    decreases done
  {
    if done == {} {
      NothingSwept(s, t);
      assert s.heartbeats.Keys - s.heartbeats.Keys == {};
    } else {
      var a :| a in done;
      var rest := done - {a};
      SweepKeepsInv(s, t, rest);
      SweepOneMore(s, t, rest, a);
      assert rest + {a} == done;
      MarkKeepsInv(SweepSome(s, t, rest), a, Silent(s, a, t));
    }
  }

  lemma StepKeepsInv(s: Bus, e: Event)
    requires Inv(s)
    ensures Inv(Step(s, e))
  {
    match e
    case Props(id, agent, kind, stateChanged) => PropsKeepInv(s, id, agent, kind, stateChanged);
    case Heartbeat(_, _) =>
    case AgentDeleted(agent) => MarkKeepsInv(s, agent, true);
    case Timer(t) => SweepKeepsInv(s, t, s.heartbeats.Keys);
    case HostRegistered(h) =>
      assert forall k :: k in s.cache ==> NodeOk(s.cache[k], s.hosts);
  }

  /** After startup, over every run: cached hostnames stay distinct, and the database agrees with
      every synced node about availability. */
  lemma {:induction false} DatabaseAgreesAfterEveryRun(hostnames: set<string>, events: seq<Event>)
    ensures Inv(Run(Started(hostnames), events))
  {
    if events != [] {
      DatabaseAgreesAfterEveryRun(hostnames, events[..|events| - 1]);
      StepKeepsInv(Run(Started(hostnames), events[..|events| - 1]), events[|events| - 1]);
    }
  }

  /** What every event of a run does to the daemon. */
  lemma StepOutcome(s: Bus, e: Event)
    ensures match e
            case Props(id, agent, kind, stateChanged) => Reported(s, id, agent, kind, stateChanged, Step(s, e))
            case Heartbeat(agent, timestamp) =>
              Step(s, e) == Bus(s.cache, s.heartbeats[agent := timestamp], s.hosts)
            case AgentDeleted(agent) => Marked(s, agent, true, Step(s, e))
            case Timer(t) =>
              forall agent :: agent in Step(s, e).heartbeats <==>
                agent in s.heartbeats && t - s.heartbeats[agent] / NANOSECONDS <= TIMEOUT
            case HostRegistered(h) =>
              Step(s, e).cache == s.cache && Step(s, e).heartbeats == s.heartbeats &&
              Step(s, e).hosts == if h in s.hosts then s.hosts else s.hosts[h := Unavailable]
  {
    match e
    case Props(id, agent, kind, stateChanged) => PropsOutcome(s, id, agent, kind, stateChanged);
    case AgentDeleted(agent) => MarkOutcome(s, agent, true);
    case _ =>
  }

  /** A sweep does not touch the objects of an agent that has no heartbeat, nor a host none of whose
      cached nodes belongs to an agent with one. */
  lemma SweepLeavesOthers(s: Bus, t: int)
    ensures Sweep(s, t).cache.Keys == s.cache.Keys && Sweep(s, t).hosts.Keys == s.hosts.Keys
    ensures forall k :: k in s.cache && s.cache[k].agentKey !in s.heartbeats ==> Sweep(s, t).cache[k] == s.cache[k]
    ensures forall h :: h in s.hosts && NoneHeard(s, h) ==> Sweep(s, t).hosts[h] == s.hosts[h]
  {}

  /** No cached node of this host belongs to an agent with a heartbeat. */
  ghost predicate NoneHeard(s: Bus, h: string) {
    forall k :: k in s.cache && s.cache[k].kind == Node(h) ==> s.cache[k].agentKey !in s.heartbeats
  }

  /** One sweep: a silent agent loses its heartbeat and has all its objects timed out; a fresh one
      keeps it, has all its objects live and all its registered hosts available. */
  lemma SweepSortsAgents(s: Bus, t: int, agent: nat)
    requires Inv(s) && agent in s.heartbeats
    ensures var swept := Sweep(s, t);
            (agent in swept.heartbeats <==> !Silent(s, agent, t)) &&
            forall k :: k in s.cache && s.cache[k].agentKey == agent ==>
              swept.cache[k].timedOut == Silent(s, agent, t) &&
              (s.cache[k].kind.Node? && s.cache[k].kind.hostname in s.hosts && !Silent(s, agent, t) ==>
                 swept.hosts[s.cache[k].kind.hostname] == Available)
  {
    var swept := Sweep(s, t);
    SweepKeepsInv(s, t, s.heartbeats.Keys);
    forall k | k in s.cache && s.cache[k].agentKey == agent && !Silent(s, agent, t) &&
               s.cache[k].kind.Node? && s.cache[k].kind.hostname in s.hosts
      ensures swept.hosts[s.cache[k].kind.hostname] == Available
    {
      assert NodeOk(swept.cache[k], swept.hosts);
    }
  }

  /** The registered hosts of a silent agent's nodes are unavailable after the sweep. */
  lemma SilentHostsUnavailable(s: Bus, t: int, k: nat)
    requires Inv(s) && k in s.cache && s.cache[k].kind.Node? && s.cache[k].kind.hostname in s.hosts
    requires s.cache[k].agentKey in s.heartbeats && Silent(s, s.cache[k].agentKey, t)
    ensures Sweep(s, t).hosts[s.cache[k].kind.hostname] == Unavailable
  {}
}
