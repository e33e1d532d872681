/** The registration daemon: its cache of hosts, keyed by the bus object that reported them, and
    the hosts in the database. */
module HostRegister {
  import opened Util

  datatype Entry = Entry(objKey: nat, agentKey: nat, hostname: string, uuid: string, active: bool)

  /** `hosts` holds the hostnames with a row in the database. */
  datatype Registry = Registry(cache: map<nat, Entry>, hosts: set<string>)

  /** A host object as the bus reports it. */
  datatype HostObject = HostObject(objectId: nat, agentKey: nat, hostname: string, uuid: string)

  /** `Host.create` may raise, or quietly return a record it could not save. */
  datatype Creation = CreateRaised | NotSaved | Saved

  /** How the database behaves during one update. */
  datatype Saves = Saves(creation: Creation, saveOk: bool)

  datatype Outcome = Updated | NotCreated | SaveRaised | ImpossibleCase

  // ---------- one update ----------

  function NewEntry(obj: HostObject): Entry {
    Entry(obj.objectId, obj.agentKey, obj.hostname, obj.uuid, true)
  }

  /** A cached entry keeps its keys; only identity and the active flag are written. */
  function Refreshed(e: Entry, obj: HostObject): Entry {
    e.(hostname := obj.hostname, uuid := obj.uuid, active := true)
  }

  /** The entries of another key with the same hostname are stale. */
  function StaleKeys(cache: map<nat, Entry>, hostname: string): set<nat> {
    set k | k in cache && cache[k].hostname == hostname
  }

  /** What `update_host` does while no two entries share a hostname. */
  function Update(r: Registry, obj: HostObject, saves: Saves): (Registry, Outcome) {
    var cached, inDb := obj.objectId in r.cache, obj.hostname in r.hosts;
    if cached && !inDb then (r, ImpossibleCase)
    else if !inDb && saves.creation.CreateRaised? then (r, NotCreated)
    else if !inDb && saves.creation.NotSaved? then (r, SaveRaised)
    else
      var hosts := r.hosts + {obj.hostname};
      if !saves.saveOk then (r.(hosts := hosts), SaveRaised)
      else if cached then
        (Registry(r.cache[obj.objectId := Refreshed(r.cache[obj.objectId], obj)], hosts), Updated)
      else
        (Registry((r.cache - StaleKeys(r.cache, obj.hostname))[obj.objectId := NewEntry(obj)], hosts), Updated)
  }

  /** Can the row of the reported host be saved? */
  predicate Savable(r: Registry, obj: HostObject, saves: Saves) {
    saves.saveOk && (obj.hostname in r.hosts || saves.creation.Saved?)
  }

  /** What one update leaves.  It goes through exactly when the host's row can be saved; the object is
      then cached live under the reported name and uuid, and the only entry of that name unless it
      was cached before.  When a save raises, a row just created stays and the cache is as it was. */
  ghost predicate Handled(r: Registry, obj: HostObject, saves: Saves, t: Registry, outcome: Outcome) {
    var id, name, inDb := obj.objectId, obj.hostname, obj.hostname in r.hosts;
    (outcome == ImpossibleCase <==> id in r.cache && !inDb) &&
    (outcome == Updated <==> Savable(r, obj, saves) && (id in r.cache ==> inDb)) &&
    (outcome == NotCreated <==> !inDb && id !in r.cache && saves.creation.CreateRaised?) &&
    (outcome == ImpossibleCase || outcome == NotCreated ==> t == r) &&
    (outcome == SaveRaised ==>
       t == Registry(r.cache, if saves.creation.Saved? then r.hosts + {name} else r.hosts)) &&
    (outcome == Updated ==>
       t.hosts == r.hosts + {name} && id in t.cache &&
       t.cache[id] == (if id in r.cache then r.cache[id].(hostname := name, uuid := obj.uuid, active := true)
                       else Entry(id, obj.agentKey, name, obj.uuid, true)) &&
       (forall k :: k != id ==> (k in t.cache <==> k in r.cache && (id in r.cache || r.cache[k].hostname != name))) &&
       (forall k :: k in t.cache && k != id ==> t.cache[k] == r.cache[k]))
  }

  lemma UpdateOutcome(r: Registry, obj: HostObject, saves: Saves)
    ensures Handled(r, obj, saves, Update(r, obj, saves).0, Update(r, obj, saves).1)
  {
    if obj.hostname in r.hosts {
      assert r.hosts + {obj.hostname} == r.hosts;
    }
  }

  /** The agent's entries have the flag, and nothing else changes. */
  ghost predicate Flagged(r: Registry, agentKey: nat, active: bool, t: Registry) {
    t.hosts == r.hosts && t.cache.Keys == r.cache.Keys &&
    forall k :: k in r.cache ==>
      t.cache[k] == r.cache[k].(active := if r.cache[k].agentKey == agentKey then active else r.cache[k].active)
  }

  function SetActive(r: Registry, agentKey: nat, active: bool): Registry {
    r.(cache := map k | k in r.cache ::
         if r.cache[k].agentKey == agentKey then r.cache[k].(active := active) else r.cache[k])
  }

  class Daemon {
    var cachedHosts: map<nat, Entry>
    var hosts: set<string>

    function State(): Registry
      reads this
    {
      Registry(cachedHosts, hosts)
    }

    constructor (hosts: set<string>)
      ensures State() == Registry(map[], hosts)
    {
      cachedHosts := map[];
      this.hosts := hosts;
    }

    /** Looks through the cache for an entry with this hostname and takes it out. */
    method TakeStale(hostname: string) returns (found: Option<Entry>)
      requires NamesDistinct(cachedHosts)
      modifies this`cachedHosts
      ensures cachedHosts == old(cachedHosts) - StaleKeys(old(cachedHosts), hostname)
      ensures found.Some? <==> StaleKeys(old(cachedHosts), hostname) != {}
    {
      found := None;
      var keys := cachedHosts.Keys;
      while keys != {}
        invariant keys <= cachedHosts.Keys && cachedHosts == old(cachedHosts)
        invariant forall k :: k in cachedHosts && k !in keys ==> cachedHosts[k].hostname != hostname
        decreases keys
      {
        var key :| key in keys;
        if cachedHosts[key].hostname == hostname {
          found := Some(cachedHosts[key]);
          assert StaleKeys(cachedHosts, hostname) == {key};
          cachedHosts := cachedHosts - {key};
          return;
        }
        keys := keys - {key};
      }
      assert StaleKeys(cachedHosts, hostname) == {};
    }

    method UpdateHost(obj: HostObject, saves: Saves) returns (outcome: Outcome)
      requires NamesDistinct(cachedHosts)
      modifies this
      ensures (State(), outcome) == Update(old(State()), obj, saves)
      ensures Handled(old(State()), obj, saves, State(), outcome)
    {
      UpdateOutcome(State(), obj, saves);
      var alreadyCache := obj.objectId in cachedHosts;
      var alreadyInDb := obj.hostname in hosts;
      if alreadyCache && !alreadyInDb {
        return ImpossibleCase;
      }
      if !alreadyInDb {
        if saves.creation.CreateRaised? {
          return NotCreated;
        }
        if saves.creation.Saved? {
          hosts := hosts + {obj.hostname};
        }
      }
      assert obj.hostname in hosts ==> hosts == old(hosts) + {obj.hostname};
      if obj.hostname !in hosts || !saves.saveOk {
        return SaveRaised;
      }
      var entry: Entry;
      if !alreadyCache {
        var stale := TakeStale(obj.hostname);
        entry := if stale.Some? then stale.value else NewEntry(obj);
        entry := entry.(objKey := obj.objectId, agentKey := obj.agentKey);
      } else {
        entry := cachedHosts[obj.objectId];
      }
      cachedHosts := cachedHosts[obj.objectId := entry.(active := true, hostname := obj.hostname, uuid := obj.uuid)];
      outcome := Updated;
    }

    /** `agent_connected` and `agent_disconnected`. */
    method MarkAgent(agentKey: nat, active: bool)
      modifies this`cachedHosts
      ensures State() == SetActive(old(State()), agentKey, active)
      ensures Flagged(old(State()), agentKey, active, State())
    {
      var keys := cachedHosts.Keys;
      ghost var was := cachedHosts;
      while keys != {}
        invariant keys <= cachedHosts.Keys == was.Keys
        invariant forall k :: k in was ==>
          cachedHosts[k] == if k !in keys && was[k].agentKey == agentKey then was[k].(active := active) else was[k]
        decreases keys
      {
        var key :| key in keys;
        if cachedHosts[key].agentKey == agentKey {
          cachedHosts := cachedHosts[key := cachedHosts[key].(active := active)];
        }
        keys := keys - {key};
      }
      assert cachedHosts == SetActive(old(State()), agentKey, active).cache;
    }
  }

  // ---------- runs ----------

  ghost predicate NamesDistinct(cache: map<nat, Entry>) {
    forall j, k :: j in cache && k in cache && cache[j].hostname == cache[k].hostname ==> j == k
  }

  /** Hostnames in the cache are distinct, every entry knows its own key, and every cached host
      is in the database. */
  ghost predicate Inv(r: Registry) {
    NamesDistinct(r.cache) &&
    forall k :: k in r.cache ==> r.cache[k].objKey == k && r.cache[k].hostname in r.hosts
  }

  /** A cached object reports the hostname it is cached under. */
  predicate KeepsName(r: Registry, obj: HostObject) {
    obj.objectId in r.cache ==> r.cache[obj.objectId].hostname == obj.hostname
  }

  lemma UpdateKeepsInv(r: Registry, obj: HostObject, saves: Saves)
    requires Inv(r) && KeepsName(r, obj)
    ensures Inv(Update(r, obj, saves).0) && Update(r, obj, saves).1 != ImpossibleCase
  {}

  /** A successful update leaves the object's entry live under the reported name and uuid, takes out
      just the other entries of that name, and touches no other. */
  lemma UpdateCaches(r: Registry, obj: HostObject, saves: Saves)
    requires Inv(r) && KeepsName(r, obj) && Update(r, obj, saves).1 == Updated
    ensures var t := Update(r, obj, saves).0;
            obj.objectId in t.cache && t.hosts == r.hosts + {obj.hostname} &&
            t.cache[obj.objectId] == Entry(obj.objectId,
              if obj.objectId in r.cache then r.cache[obj.objectId].agentKey else obj.agentKey,
              obj.hostname, obj.uuid, true) &&
            forall k :: k != obj.objectId ==>
              (k in t.cache <==> k in r.cache && r.cache[k].hostname != obj.hostname) &&
              (k in t.cache ==> t.cache[k] == r.cache[k])
  {
    var t := Update(r, obj, saves).0;
    forall k | k != obj.objectId
      ensures k in t.cache <==> k in r.cache && r.cache[k].hostname != obj.hostname
    {}
  }

  /** An object that keeps its name: exactly when its row can be saved the update goes through. */
  lemma UpdatedIff(r: Registry, obj: HostObject, saves: Saves)
    requires Inv(r) && KeepsName(r, obj)
    ensures Update(r, obj, saves).1 == Updated <==> Savable(r, obj, saves)
    ensures Handled(r, obj, saves, Step(r, Report(obj, saves)), Update(r, obj, saves).1)
  {
    UpdateOutcome(r, obj, saves);
  }

  /** For an object already cached this is exact: the update goes through and keeps the invariant
      just when the reported name is in the database and no other entry has it. */
  lemma CachedUpdateKeepsInvIff(r: Registry, obj: HostObject)
    requires Inv(r) && obj.objectId in r.cache
    ensures Update(r, obj, Saves(Saved, true)).1 == Updated && Inv(Update(r, obj, Saves(Saved, true)).0) <==>
            obj.hostname in r.hosts &&
            forall k :: k in r.cache && k != obj.objectId ==> r.cache[k].hostname != obj.hostname
  {
    var t := Update(r, obj, Saves(Saved, true)).0;
    if obj.hostname in r.hosts {
      forall k | k in r.cache && k != obj.objectId
        ensures k in t.cache && t.cache[k] == r.cache[k]
      {}
      assert t.cache[obj.objectId].hostname == obj.hostname;
    }
  }

  datatype Event =
    | Report(obj: HostObject, saves: Saves)
    | Agent(agentKey: nat, active: bool)

  function Step(r: Registry, e: Event): Registry {
    match e
    case Report(obj, saves) => Update(r, obj, saves).0
    case Agent(agentKey, active) => SetActive(r, agentKey, active)
  }

  lemma AgentOutcome(r: Registry, agentKey: nat, active: bool)
    ensures Flagged(r, agentKey, active, Step(r, Agent(agentKey, active)))
  {}

  function Run(r: Registry, events: seq<Event>): Registry {
    if events == [] then r else Step(Run(r, events[..|events| - 1]), events[|events| - 1])
  }

  /** Each object id always reports the same hostname. */
  ghost predicate FixedNames(events: seq<Event>, nameOf: map<nat, string>) {
    forall i :: 0 <= i < |events| && events[i].Report? ==>
      events[i].obj.objectId in nameOf && nameOf[events[i].obj.objectId] == events[i].obj.hostname
  }

  ghost predicate CacheNames(r: Registry, nameOf: map<nat, string>) {
    forall k :: k in r.cache ==> k in nameOf && nameOf[k] == r.cache[k].hostname
  }

  /** Starting with an empty cache, over every run in which object ids keep their hostnames, the
      invariant holds; so the case "cached but not in the database" never comes up. */
  lemma {:induction false} CacheStaysConsistent(hosts: set<string>, events: seq<Event>, nameOf: map<nat, string>)
    requires FixedNames(events, nameOf)
    ensures var r := Run(Registry(map[], hosts), events);
            Inv(r) && CacheNames(r, nameOf) &&
            forall obj: HostObject, saves: Saves :: obj.objectId in nameOf && nameOf[obj.objectId] == obj.hostname ==>
              Update(r, obj, saves).1 != ImpossibleCase
  {
    if events != [] {
      var n := |events| - 1;
      CacheStaysConsistent(hosts, events[..n], nameOf);
      var r := Run(Registry(map[], hosts), events[..n]);
      if events[n].Report? {
        UpdateKeepsInv(r, events[n].obj, events[n].saves);
      }
    }
  }
}
