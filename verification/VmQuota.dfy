/** Quota admission in a virtual machine pool.  What counts is the state each machine will be in
    once its queue has run; a start or restore is queued only if the machine then still fits. */
module VmQuota {
  import opened Util
  import opened VmLifecycle
  import Permissions

  /** Nil columns mean unlimited. */
  datatype Quota = Quota(cpus: Option<nat>, memory: Option<nat>, nics: Option<nat>, vms: Option<nat>)

  const UNLIMITED := Quota(None, None, None, None)

  datatype Usage = Usage(cpus: nat, memory: nat, nics: nat, vms: nat)

  datatype Resources = Resources(cpus: Option<int>, memory: Option<int>, nics: Option<int>, vms: Option<int>)

  datatype Host = Host(cpus: nat, memory: nat)

  // ---------- the quota that applies ----------

  /** `self_and_ancestors`, from the root down. */
  function SelfAndAncestors(pools: map<nat, Permissions.Pool>, p: nat): (path: seq<nat>)
    ensures forall a :: a in path <==> Permissions.AtOrAbove(pools, a, p)
    ensures path != [] && path[|path| - 1] == p
    decreases p
  {
    if p in pools && pools[p].parent.Some? && pools[p].parent.value < p
    then SelfAndAncestors(pools, pools[p].parent.value) + [p]
    else [p]
  }

  /** Pool `a` is the nearest one at or above `p` that has a quota. */
  ghost predicate NearestWithQuota(pools: map<nat, Permissions.Pool>, quotas: map<nat, Quota>, p: nat, a: nat) {
    a in quotas && Permissions.AtOrAbove(pools, a, p) &&
    forall b :: b in quotas && Permissions.AtOrAbove(pools, b, p) ==> Permissions.AtOrAbove(pools, b, a)
  }

  /** The quota of the nearest pool that has one, and unlimited when there is none. */
  ghost predicate Applies(pools: map<nat, Permissions.Pool>, quotas: map<nat, Quota>, p: nat, total: Quota) {
    if exists a :: a in quotas && Permissions.AtOrAbove(pools, a, p)
    then exists a :: NearestWithQuota(pools, quotas, p, a) && total == quotas[a]
    else total == UNLIMITED
  }

  /** `total_resources`, by `traverse_parents` from the pool upwards. */
  method TotalResources(pools: map<nat, Permissions.Pool>, quotas: map<nat, Quota>, p: nat) returns (total: Quota)
    ensures Applies(pools, quotas, p, total)
  {
    var path := SelfAndAncestors(pools, p);
    var i := |path|;
    while i > 0
      invariant 0 <= i <= |path|
      invariant forall k :: i <= k < |path| ==> path[k] !in quotas
    {
      i := i - 1;
      if path[i] in quotas {
        assert path[i] in path;
        forall b | b in quotas && Permissions.AtOrAbove(pools, b, p)
          ensures Permissions.AtOrAbove(pools, b, path[i])
        {
          var k :| 0 <= k < |path| && path[k] == b;
          if k < i {
            PathDescends(pools, p, k, i);
          }
        }
        assert NearestWithQuota(pools, quotas, p, path[i]);
        return quotas[path[i]];
      }
    }
    total := UNLIMITED;
  }

  lemma {:induction false} PathDescends(pools: map<nat, Permissions.Pool>, p: nat, j: nat, k: nat)
    requires j < k < |SelfAndAncestors(pools, p)|
    ensures Permissions.IsAncestor(pools, SelfAndAncestors(pools, p)[j], SelfAndAncestors(pools, p)[k])
    decreases p
  {
    var q := pools[p].parent.value;
    var path := SelfAndAncestors(pools, p);
    var above := SelfAndAncestors(pools, q);
    assert path == above + [p];
    if k < |above| {
      PathDescends(pools, q, j, k);
    } else {
      assert above[j] in above;
    }
  }

  /** There is only one nearest pool, so the quota found is determined. */
  lemma NearestIsUnique(pools: map<nat, Permissions.Pool>, quotas: map<nat, Quota>, p: nat, a: nat, b: nat)
    requires NearestWithQuota(pools, quotas, p, a) && NearestWithQuota(pools, quotas, p, b)
    ensures a == b
  {
    if a != b {
      Permissions.AncestorIsSmaller(pools, a, b);
      Permissions.AncestorIsSmaller(pools, b, a);
    }
  }

  /** The same walk as a function. */
  function QuotaFor(pools: map<nat, Permissions.Pool>, quotas: map<nat, Quota>, p: nat): Quota
    decreases p
  {
    if p in quotas then quotas[p]
    else if p in pools && pools[p].parent.Some? && pools[p].parent.value < p
    then QuotaFor(pools, quotas, pools[p].parent.value)
    else UNLIMITED
  }

  lemma {:induction false} QuotaForApplies(pools: map<nat, Permissions.Pool>, quotas: map<nat, Quota>, p: nat)
    ensures Applies(pools, quotas, p, QuotaFor(pools, quotas, p))
    decreases p
  {
    if p in quotas {
      assert NearestWithQuota(pools, quotas, p, p);
    } else if p in pools && pools[p].parent.Some? && pools[p].parent.value < p {
      var q := pools[p].parent.value;
      QuotaForApplies(pools, quotas, q);
      assert forall b :: b in quotas ==> (Permissions.AtOrAbove(pools, b, p) <==> Permissions.AtOrAbove(pools, b, q));
      if a :| a in quotas && Permissions.AtOrAbove(pools, a, q) {
        var n :| NearestWithQuota(pools, quotas, q, n) && QuotaFor(pools, quotas, q) == quotas[n];
        assert NearestWithQuota(pools, quotas, p, n);
      }
    }
  }

  // ---------- accounting ----------

  function Share(vm: Vm, s: State): Usage {
    if ConsumesResources(s) then Usage(vm.cpus, vm.memory, 1, 1) else Usage(0, 0, 0, 0)
  }

  function Plus(a: Usage, b: Usage): Usage {
    Usage(a.cpus + b.cpus, a.memory + b.memory, a.nics + b.nics, a.vms + b.vms)
  }

  function StateFor(vm: Vm, pending: bool): State {
    if pending then PendingState(vm) else vm.state
  }

  /** The use of all machines but the excluded one, by recorded or by pending state. */
  function Allocated(vms: seq<Vm>, exclude: Option<nat>, pending: bool): Usage {
    if vms == [] then Usage(0, 0, 0, 0)
    else
      var last := vms[|vms| - 1];
      var before := Allocated(vms[..|vms| - 1], exclude, pending);
      if exclude == Some(last.id) then before else Plus(before, Share(last, StateFor(last, pending)))
  }

  /** `allocated_resources`, counting both ways in one pass. */
  method AllocatedResources(vms: seq<Vm>, exclude: Option<nat>) returns (current: Usage, pending: Usage)
    ensures current == Allocated(vms, exclude, false)
    ensures pending == Allocated(vms, exclude, true)
  {
    current, pending := Usage(0, 0, 0, 0), Usage(0, 0, 0, 0);
    assert vms[..0] == [] && Allocated([], exclude, false) == current && Allocated([], exclude, true) == pending;
    hide Allocated, PendingState, ConsumesResources, Plus;
    var i := 0;
    while i < |vms|
      invariant 0 <= i <= |vms|
      invariant current == Allocated(vms[..i], exclude, false)
      invariant pending == Allocated(vms[..i], exclude, true)
    {
      var vm := vms[i];
      UseUpTo(vms, i, exclude, false);
      UseUpTo(vms, i, exclude, true);
      if exclude != Some(vm.id) {
        if ConsumesResources(vm.state) {
          current := Plus(current, Usage(vm.cpus, vm.memory, 1, 1));
        }
        var s := GetPendingState(vm);
        if ConsumesResources(s) {
          pending := Plus(pending, Usage(vm.cpus, vm.memory, 1, 1));
        }
      }
      i := i + 1;
    }
    assert vms[..i] == vms;
  }

  function Less(total: Option<nat>, used: nat): Option<int> {
    if total.None? then None else Some(total.value as int - used)
  }

  function Subtract(total: Quota, used: Usage): Resources {
    Resources(Less(total.cpus, used.cpus), Less(total.memory, used.memory),
              Less(total.nics, used.nics), Less(total.vms, used.vms))
  }

  /** The memory of the host ordered first by memory, descending; zero when there is none. */
  function LargestMemory(hosts: seq<Host>): (m: nat)
    ensures forall h :: h in hosts ==> h.memory <= m
    ensures m == 0 || exists h :: h in hosts && h.memory == m
  {
    if hosts == [] then 0
    else
      var m, last := LargestMemory(hosts[..|hosts| - 1]), hosts[|hosts| - 1];
      assert hosts == hosts[..|hosts| - 1] + [last];
      if last.memory > m then last.memory else m
  }

  function LargestCpus(hosts: seq<Host>): (m: nat)
    ensures forall h :: h in hosts ==> h.cpus <= m
    ensures m == 0 || exists h :: h in hosts && h.cpus == m
  {
    if hosts == [] then 0
    else
      var m, last := LargestCpus(hosts[..|hosts| - 1]), hosts[|hosts| - 1];
      assert hosts == hosts[..|hosts| - 1] + [last];
      if last.cpus > m then last.cpus else m
  }

  function CapAt(limit: nat, x: Option<int>): Option<int> {
    if x.None? || limit < x.value then Some(limit) else x
  }

  /** `available_resources_for_vm`: what the quota leaves, memory and cpus further capped by
      the largest host of the hardware pool. */
  function AvailableForVm(vms: seq<Vm>, quota: Quota, hosts: seq<Host>, id: nat, pending: bool): Resources {
    var free := Subtract(quota, Allocated(vms, Some(id), pending));
    free.(memory := CapAt(LargestMemory(hosts), free.memory), cpus := CapAt(LargestCpus(hosts), free.cpus))
  }

  predicate AtMost(need: nat, free: Option<int>) {
    free.None? || need <= free.value
  }

  predicate ResourcesForStart(vms: seq<Vm>, quota: Quota, hosts: seq<Host>, vm: Vm, pending: bool) {
    var free := AvailableForVm(vms, quota, hosts, vm.id, pending);
    AtMost(vm.memory, free.memory) && AtMost(vm.cpus, free.cpus) && AtMost(1, free.nics) && AtMost(1, free.vms)
  }

  // ---------- the pool ----------

  datatype Pool = Pool(vms: seq<Vm>, nextId: nat, quota: Quota, hosts: seq<Host>)

  datatype PoolEvent =
    | Create(cpus: nat, memory: nat, startNow: bool)
    | One(i: nat, event: Event)
    | Destroy(i: nat)
    | HostsChange(hosts: seq<Host>)

  /** `get_action_list`, without a user. */
  predicate InActionList(p: Pool, vm: Vm, a: Action) {
    Actions(a).start == PendingState(vm) &&
    (a in {StartVm, RestoreVm} ==> ResourcesForStart(p.vms, p.quota, p.hosts, vm, true))
  }

  const KB_PER_MB := 1024

  /** The size checks of the machine's validation, against the whole quota. */
  predicate ValidSize(q: Quota, cpus: nat, memory: nat) {
    256 <= memory / KB_PER_MB && 1 <= cpus <= 16 &&
    (q.memory.Some? ==> memory <= q.memory.value) && (q.cpus.Some? ==> cpus <= q.cpus.value) &&
    (q.nics.Some? ==> 1 <= q.nics.value)
  }

  function Update(p: Pool, i: nat, vm: Vm): Pool
    requires i < |p.vms|
  {
    p.(vms := p.vms[i := vm])
  }

  function QueueIfAllowed(p: Pool, i: nat, a: Action): Pool
    requires i < |p.vms|
  {
    if InActionList(p, p.vms[i], a) then Update(p, i, Enqueue(p.vms[i], a)) else p
  }

  function Created(p: Pool, cpus: nat, memory: nat): Pool {
    p.(vms := p.vms + [NewVm(p.nextId, cpus, memory)], nextId := p.nextId + 1)
  }

  /** `is_destroyable?`. */
  predicate Destroyable(vm: Vm) {
    vm.state in {Pending, Stopped, CreateFailed, Invalid} && vm.state == PendingState(vm)
  }

  function Without(vms: seq<Vm>, i: nat): seq<Vm>
    requires i < |vms|
  {
    vms[..i] + vms[i + 1..]
  }

  function Apply(p: Pool, e: PoolEvent): Pool {
    match e
    case Create(cpus, memory, startNow) =>
      if !ValidSize(p.quota, cpus, memory) then p
      else
        var created := Created(p, cpus, memory);
        if startNow then QueueIfAllowed(created, |p.vms|, StartVm) else created
    case One(i, event) =>
      if i >= |p.vms| then p
      else if event.Queue? then QueueIfAllowed(p, i, event.action)
      else Update(p, i, Happen(p.vms[i], event))
    case Destroy(i) =>
      if i < |p.vms| && Destroyable(p.vms[i]) then p.(vms := Without(p.vms, i)) else p
    case HostsChange(hosts) => p.(hosts := hosts)
  }

  function Run(p: Pool, events: seq<PoolEvent>): Pool {
    if events == [] then p else Apply(Run(p, events[..|events| - 1]), events[|events| - 1])
  }

  predicate Within(u: Usage, q: Quota) {
    (q.cpus.Some? ==> u.cpus <= q.cpus.value) && (q.memory.Some? ==> u.memory <= q.memory.value) &&
    (q.nics.Some? ==> u.nics <= q.nics.value) && (q.vms.Some? ==> u.vms <= q.vms.value)
  }

  ghost predicate WellFormed(p: Pool) {
    (forall i :: 0 <= i < |p.vms| ==> p.vms[i].id < p.nextId) &&
    (forall i, j :: 0 <= i < j < |p.vms| ==> p.vms[i].id != p.vms[j].id) &&
    (forall i :: 0 <= i < |p.vms| ==> p.vms[i].state != Invalid && PendingState(p.vms[i]) != Invalid)
  }

  ghost predicate Inv(p: Pool) {
    WellFormed(p) && Within(Allocated(p.vms, None, true), p.quota)
  }

  // ---------- lemmas ----------

  lemma {:induction false} ExcludingAbsent(vms: seq<Vm>, id: nat, pending: bool)
    requires forall k :: 0 <= k < |vms| ==> vms[k].id != id
    ensures Allocated(vms, Some(id), pending) == Allocated(vms, None, pending)
  {
    hide Share, StateFor, Plus;
    if vms != [] {
      ExcludingAbsent(vms[..|vms| - 1], id, pending);
    }
  }

  lemma UseOfLast(vms: seq<Vm>, last: Vm, exclude: Option<nat>, pending: bool)
    ensures Allocated(vms + [last], exclude, pending) ==
            if exclude == Some(last.id) then Allocated(vms, exclude, pending)
            else Plus(Allocated(vms, exclude, pending), Share(last, StateFor(last, pending)))
  {
    hide Share, StateFor, Plus;
    assert (vms + [last])[..|vms|] == vms;
  }

  predicate Counted(vm: Vm, exclude: Option<nat>, pending: bool) {
    exclude != Some(vm.id) && ConsumesResources(if pending then PendingState(vm) else vm.state)
  }

  function Sum(vms: seq<Vm>, amount: Vm -> nat): nat {
    if vms == [] then 0 else Sum(vms[..|vms| - 1], amount) + amount(vms[|vms| - 1])
  }

  /** Each column of the use is the sum of it over the machines that are counted. */
  lemma {:induction false} UseIsTheSum(vms: seq<Vm>, exclude: Option<nat>, pending: bool)
    ensures var use := Allocated(vms, exclude, pending);
            use.cpus == Sum(vms, vm => if Counted(vm, exclude, pending) then vm.cpus else 0) &&
            use.memory == Sum(vms, vm => if Counted(vm, exclude, pending) then vm.memory else 0) &&
            use.nics == Sum(vms, vm => if Counted(vm, exclude, pending) then 1 else 0) &&
            use.vms == Sum(vms, vm => if Counted(vm, exclude, pending) then 1 else 0)
  {
    if vms != [] {
      UseIsTheSum(vms[..|vms| - 1], exclude, pending);
    }
  }

  lemma UseUpTo(vms: seq<Vm>, i: nat, exclude: Option<nat>, pending: bool)
    requires i < |vms|
    ensures Allocated(vms[..i + 1], exclude, pending) ==
            if exclude == Some(vms[i].id) || !ConsumesResources(StateFor(vms[i], pending))
            then Allocated(vms[..i], exclude, pending)
            else Plus(Allocated(vms[..i], exclude, pending), Usage(vms[i].cpus, vms[i].memory, 1, 1))
  {
    hide Allocated, StateFor, ConsumesResources;
    assert vms[..i + 1] == vms[..i] + [vms[i]];
    UseOfLast(vms[..i], vms[i], exclude, pending);
  }

  /** Total use is the use of the others plus the machine's own share, whatever the machine is. */
  lemma {:induction false} UseSplits(vms: seq<Vm>, i: nat, vm: Vm, pending: bool)
    requires i < |vms| && vm.id == vms[i].id
    requires forall j, k :: 0 <= j < k < |vms| ==> vms[j].id != vms[k].id
    ensures Allocated(vms[i := vm], None, pending) ==
            Plus(Allocated(vms, Some(vm.id), pending), Share(vm, StateFor(vm, pending)))
  {
    hide Share, StateFor;
    var n := |vms| - 1;
    if i == n {
      assert vms[i := vm][..n] == vms[..n];
      ExcludingAbsent(vms[..n], vm.id, pending);
    } else {
      assert vms[i := vm][..n] == vms[..n][i := vm];
      UseSplits(vms[..n], i, vm, pending);
    }
  }

  ghost predicate SomeHostHas(hosts: seq<Host>, cpus: nat, memory: nat) {
    exists h :: h in hosts && h.cpus >= cpus && h.memory >= memory
  }

  lemma CapAdmits(need: nat, limit: nat, free: Option<int>)
    ensures AtMost(need, CapAt(limit, free)) <==> need <= limit && AtMost(need, free)
  {}

  lemma SomeHostIff(hosts: seq<Host>, vm: Vm)
    ensures vm.memory <= LargestMemory(hosts) <==> vm.memory == 0 || SomeHostHas(hosts, 0, vm.memory)
    ensures vm.cpus <= LargestCpus(hosts) <==> vm.cpus == 0 || SomeHostHas(hosts, vm.cpus, 0)
  {}

  lemma FitsIff(quota: Quota, used: Usage, vm: Vm)
    ensures var free := Subtract(quota, used);
            AtMost(vm.memory, free.memory) && AtMost(vm.cpus, free.cpus) && AtMost(1, free.nics) && AtMost(1, free.vms) <==>
            Within(Plus(used, Usage(vm.cpus, vm.memory, 1, 1)), quota)
  {}

  /** A machine is admitted exactly when it fits into the quota beside the others, some host has
      its memory, and some host, maybe another one, has its cpus. */
  lemma AdmittedIff(vms: seq<Vm>, quota: Quota, hosts: seq<Host>, vm: Vm, pending: bool)
    ensures ResourcesForStart(vms, quota, hosts, vm, pending) <==>
            Within(Plus(Allocated(vms, Some(vm.id), pending), Usage(vm.cpus, vm.memory, 1, 1)), quota) &&
            (vm.memory == 0 || SomeHostHas(hosts, 0, vm.memory)) && (vm.cpus == 0 || SomeHostHas(hosts, vm.cpus, 0))
  {
    hide Within, Allocated, SomeHostHas, CapAt, AtMost, Subtract;
    var used := Allocated(vms, Some(vm.id), pending);
    var free := Subtract(quota, used);
    CapAdmits(vm.memory, LargestMemory(hosts), free.memory);
    CapAdmits(vm.cpus, LargestCpus(hosts), free.cpus);
    SomeHostIff(hosts, vm);
    FitsIff(quota, used, vm);
  }

  /** The action fits behind the queue, and a start or restore fits into the quota beside the other
      machines, with hosts large enough. */
  ghost predicate MayQueue(p: Pool, vm: Vm, a: Action) {
    Actions(a).start == PendingState(vm) &&
    (a == StartVm || a == RestoreVm ==>
       Within(Plus(Allocated(p.vms, Some(vm.id), true), Usage(vm.cpus, vm.memory, 1, 1)), p.quota) &&
       (vm.memory == 0 || SomeHostHas(p.hosts, 0, vm.memory)) && (vm.cpus == 0 || SomeHostHas(p.hosts, vm.cpus, 0)))
  }

  lemma ActionListIff(p: Pool, vm: Vm, a: Action)
    ensures InActionList(p, vm, a) <==> MayQueue(p, vm, a)
  {
    AdmittedIff(p.vms, p.quota, p.hosts, vm, true);
  }

  /** An action is queued exactly when it may be, at the end of the machine's queue; otherwise the
      pool stays as it is. */
  lemma QueueOutcome(p: Pool, i: nat, a: Action)
    requires i < |p.vms|
    ensures Apply(p, One(i, Queue(a))) ==
            if MayQueue(p, p.vms[i], a) then p.(vms := p.vms[i := p.vms[i].(queue := p.vms[i].queue + [a])]) else p
  {
    hide MayQueue, InActionList;
    ActionListIff(p, p.vms[i], a);
  }

  /** Any other event of a machine happens to it alone. */
  lemma OtherEventOutcome(p: Pool, i: nat, e: Event)
    requires i < |p.vms| && !e.Queue?
    ensures Apply(p, One(i, e)) == p.(vms := p.vms[i := Happen(p.vms[i], e)])
  {}

  /** A machine is created exactly when its size is valid, with its creation queued, and its start
      behind that when it is asked for and fits beside the machines already there. */
  lemma CreateOutcome(p: Pool, cpus: nat, memory: nat, startNow: bool)
    requires WellFormed(p)
    ensures var valid := 256 <= memory / 1024 && 1 <= cpus <= 16 && (p.quota.memory.Some? ==> memory <= p.quota.memory.value) &&
                         (p.quota.cpus.Some? ==> cpus <= p.quota.cpus.value) && (p.quota.nics.Some? ==> 1 <= p.quota.nics.value);
            var fits := Within(Plus(Allocated(p.vms, None, true), Usage(cpus, memory, 1, 1)), p.quota) &&
                        SomeHostHas(p.hosts, 0, memory) && SomeHostHas(p.hosts, cpus, 0);
            Apply(p, Create(cpus, memory, startNow)) ==
            if !valid then p
            else p.(nextId := p.nextId + 1,
                    vms := p.vms + [Vm(p.nextId, Pending, if startNow && fits then [CreateVm, StartVm] else [CreateVm],
                                       cpus, memory)])
  {
    hide Within, SomeHostHas, PendingState, Allocated, InActionList;
    if ValidSize(p.quota, cpus, memory) && startNow {
      var vm, created := NewVm(p.nextId, cpus, memory), Created(p, cpus, memory);
      NewVmStops(p.nextId, cpus, memory);
      UseOfLast(p.vms, vm, Some(vm.id), true);
      ExcludingAbsent(p.vms, vm.id, true);
      ActionListIff(created, vm, StartVm);
      assert created.vms[|p.vms|] == vm;
      assert Enqueue(vm, StartVm).queue == [CreateVm, StartVm];
      assert created.vms[|p.vms| := Enqueue(vm, StartVm)] == p.vms + [Enqueue(vm, StartVm)];
    }
  }

  /** A machine is deleted exactly when it is pending, stopped, failed or invalid, and its queue leads
      nowhere else. */
  lemma DestroyOutcome(p: Pool, i: nat)
    ensures Apply(p, Destroy(i)) ==
            if i < |p.vms| && p.vms[i].state in {Pending, Stopped, CreateFailed, Invalid} &&
               PendingState(p.vms[i]) == p.vms[i].state
            then p.(vms := p.vms[..i] + p.vms[i + 1..]) else p
  {
    hide PendingState;
  }

  /** Replacing a machine by one of the same size keeps the invariant if it does not become a
      consumer, or if it was admitted. */
  lemma UpdateKeepsInv(p: Pool, i: nat, vm: Vm)
    requires Inv(p) && i < |p.vms|
    requires vm.id == p.vms[i].id && vm.cpus == p.vms[i].cpus && vm.memory == p.vms[i].memory
    requires vm.state != Invalid && PendingState(vm) != Invalid
    requires ConsumesResources(PendingState(vm)) && !ConsumesResources(PendingState(p.vms[i])) ==>
               ResourcesForStart(p.vms, p.quota, p.hosts, p.vms[i], true)
    ensures Inv(Update(p, i, vm))
  {
    var before := p.vms[i];
    UseSplits(p.vms, i, vm, true);
    UseSplits(p.vms, i, before, true);
    assert p.vms[i := before] == p.vms;
    if ConsumesResources(PendingState(vm)) && !ConsumesResources(PendingState(before)) {
      AdmittedIff(p.vms, p.quota, p.hosts, before, true);
    }
  }

  lemma QueueKeepsInv(p: Pool, i: nat, a: Action)
    requires Inv(p) && i < |p.vms|
    ensures Inv(QueueIfAllowed(p, i, a))
  {
    var vm := p.vms[i];
    if InActionList(p, vm, a) {
      EventKeepsChainIff(vm, Queue(a));
      QueueLeadsToSuccess(vm, a);
      OnlyStartAndRestoreConsume(a);
      UpdateKeepsInv(p, i, Enqueue(vm, a));
    }
  }

  lemma CreatedWellFormed(p: Pool, cpus: nat, memory: nat)
    requires WellFormed(p)
    ensures WellFormed(Created(p, cpus, memory))
  {
    NewVmStops(p.nextId, cpus, memory);
    hide PendingState;
    var vm := NewVm(p.nextId, cpus, memory);
    var vms := p.vms + [vm];
    assert forall i :: 0 <= i < |p.vms| ==> vms[i] == p.vms[i];
  }

  lemma CreatedKeepsInv(p: Pool, cpus: nat, memory: nat)
    requires Inv(p)
    ensures Inv(Created(p, cpus, memory))
  {
    hide WellFormed, Allocated, PendingState;
    CreatedWellFormed(p, cpus, memory);
    NewVmStops(p.nextId, cpus, memory);
    UseOfLast(p.vms, NewVm(p.nextId, cpus, memory), None, true);
  }

  lemma CreateKeepsInv(p: Pool, cpus: nat, memory: nat, startNow: bool)
    requires Inv(p)
    ensures Inv(Apply(p, Create(cpus, memory, startNow)))
  {
    CreatedKeepsInv(p, cpus, memory);
    QueueKeepsInv(Created(p, cpus, memory), |p.vms|, StartVm);
  }

  /** The restart path queues a start without looking at the quota; that is safe because the
      machine is running before and after. */
  lemma EventKeepsInv(p: Pool, i: nat, e: Event)
    requires Inv(p) && i < |p.vms| && !e.CancelAll? && !e.Unsaved?
    ensures Inv(Apply(p, One(i, e)))
  {
    var vm := p.vms[i];
    if e.Queue? {
      QueueKeepsInv(p, i, e.action);
    } else {
      EventKeepsChainIff(vm, e);
      ExecutionKeepsPendingState(vm);
      if e.Restart? && PendingState(vm) == Running {
        RestartLeadsBackToRunning(vm);
      }
      UpdateKeepsInv(p, i, Happen(vm, e));
    }
  }

  lemma {:induction false} RemovedUse(vms: seq<Vm>, i: nat, pending: bool)
    requires i < |vms| && forall j, k :: 0 <= j < k < |vms| ==> vms[j].id != vms[k].id
    ensures Allocated(Without(vms, i), None, pending) == Allocated(vms, Some(vms[i].id), pending)
  {
    hide Share, StateFor;
    var n, left := |vms| - 1, Without(vms, i);
    if i == n {
      assert left == vms[..n];
      ExcludingAbsent(vms[..n], vms[n].id, pending);
    } else {
      assert left[..|left| - 1] == Without(vms[..n], i);
      RemovedUse(vms[..n], i, pending);
    }
  }

  lemma RemovedWellFormed(p: Pool, i: nat)
    requires WellFormed(p) && i < |p.vms|
    ensures WellFormed(p.(vms := Without(p.vms, i)))
  {}

  /** A machine that may be destroyed takes no part of the quota with it. */
  lemma DestroyKeepsUse(p: Pool, i: nat)
    requires WellFormed(p)
    ensures WellFormed(Apply(p, Destroy(i)))
    ensures Allocated(Apply(p, Destroy(i)).vms, None, true) == Allocated(p.vms, None, true)
  {
    if i < |p.vms| && Destroyable(p.vms[i]) {
      RemovedWellFormed(p, i);
      RemovedUse(p.vms, i, true);
      UseSplits(p.vms, i, p.vms[i], true);
      assert p.vms[i := p.vms[i]] == p.vms;
    }
  }

  /** No queue is cancelled, and every head that leaves a queue is saved. */
  predicate Orderly(e: PoolEvent) {
    e.One? ==> !e.event.CancelAll? && !e.event.Unsaved?
  }

  predicate AllOrderly(events: seq<PoolEvent>) {
    forall k :: 0 <= k < |events| ==> Orderly(events[k])
  }

  lemma ApplyKeepsInv(p: Pool, e: PoolEvent)
    requires Inv(p) && Orderly(e)
    ensures Inv(Apply(p, e)) && Apply(p, e).quota == p.quota
  {
    match e
    case Create(cpus, memory, startNow) => CreateKeepsInv(p, cpus, memory, startNow);
    case One(i, event) =>
      if i < |p.vms| {
        EventKeepsInv(p, i, event);
      }
    case Destroy(i) => DestroyKeepsUse(p, i);
    case HostsChange(_) =>
  }

  /** Pending use never exceeds the quota, in any dimension, over any run of creations, queued
      actions, restarts, successful executions and deletions. */
  lemma {:induction false} QuotaIsNeverExceeded(quota: Quota, hosts: seq<Host>, events: seq<PoolEvent>)
    requires AllOrderly(events)
    ensures var p := Run(Pool([], 0, quota, hosts), events);
            p.quota == quota && WellFormed(p) && Within(Allocated(p.vms, None, true), quota)
  {
    if events != [] {
      var n := |events| - 1;
      QuotaIsNeverExceeded(quota, hosts, events[..n]);
      ApplyKeepsInv(Run(Pool([], 0, quota, hosts), events[..n]), events[n]);
    }
  }

  // ---------- several machine pools in one tree ----------

  /** Machine pools by id, in a pool tree some of whose pools have a quota. */
  datatype System = System(tree: map<nat, Permissions.Pool>, quotas: map<nat, Quota>, machines: map<nat, Pool>)

  /** Machine pools start empty, each under the quota found by walking up the tree. */
  function EmptySystem(tree: map<nat, Permissions.Pool>, quotas: map<nat, Quota>, ids: set<nat>, hosts: seq<Host>): System {
    System(tree, quotas, map p | p in ids :: Pool([], 0, QuotaFor(tree, quotas, p), hosts))
  }

  datatype SystemEvent = In(pool: nat, event: PoolEvent)

  function ApplyIn(s: System, e: SystemEvent): System {
    if e.pool in s.machines then s.(machines := s.machines[e.pool := Apply(s.machines[e.pool], e.event)]) else s
  }

  function RunIn(s: System, events: seq<SystemEvent>): System {
    if events == [] then s else ApplyIn(RunIn(s, events[..|events| - 1]), events[|events| - 1])
  }

  ghost predicate SystemInv(s: System) {
    forall p :: p in s.machines ==> Inv(s.machines[p]) && s.machines[p].quota == QuotaFor(s.tree, s.quotas, p)
  }

  lemma {:induction false} RunInKeepsInv(s: System, events: seq<SystemEvent>)
    requires SystemInv(s) && forall k :: 0 <= k < |events| ==> Orderly(events[k].event)
    ensures SystemInv(RunIn(s, events))
    ensures RunIn(s, events).tree == s.tree && RunIn(s, events).quotas == s.quotas
    ensures RunIn(s, events).machines.Keys == s.machines.Keys
  {
    hide Inv, QuotaFor, Apply, Orderly;
    if events != [] {
      var n := |events| - 1;
      RunInKeepsInv(s, events[..n]);
      var before := RunIn(s, events[..n]);
      if events[n].pool in before.machines {
        ApplyKeepsInv(before.machines[events[n].pool], events[n].event);
      }
    }
  }

  /** With any number of machine pools anywhere in the tree, over any interleaved run, each keeps its
      pending use within the quota of the nearest pool at or above it that has one. */
  lemma {:induction false} NearestQuotaIsNeverExceeded(tree: map<nat, Permissions.Pool>, quotas: map<nat, Quota>, ids: set<nat>,
                                    hosts: seq<Host>, events: seq<SystemEvent>, p: nat, a: nat)
    requires (forall k :: 0 <= k < |events| ==> Orderly(events[k].event)) && p in ids
    requires NearestWithQuota(tree, quotas, p, a)
    ensures var s := RunIn(EmptySystem(tree, quotas, ids, hosts), events);
            p in s.machines && Within(Allocated(s.machines[p].vms, None, true), quotas[a])
  {
    RunInKeepsInv(EmptySystem(tree, quotas, ids, hosts), events);
    QuotaForApplies(tree, quotas, p);
    var b :| NearestWithQuota(tree, quotas, p, b) && QuotaFor(tree, quotas, p) == quotas[b];
    NearestIsUnique(tree, quotas, p, a, b);
  }

  // ---------- events outside those runs ----------

  /** Cancelling a machine's queue is not covered: it keeps the quota exactly when the machine's
      present state is no new consumer, or the others leave room for it. */
  lemma CancelKeepsQuotaIff(p: Pool, i: nat)
    requires Inv(p) && i < |p.vms|
    ensures var vm := p.vms[i];
            Within(Allocated(Apply(p, One(i, CancelAll)).vms, None, true), p.quota) <==>
            (!ConsumesResources(Effective(vm.state)) || ConsumesResources(PendingState(vm)) ||
             Within(Plus(Allocated(p.vms, Some(vm.id), true), Usage(vm.cpus, vm.memory, 1, 1)), p.quota))
  {
    var vm := p.vms[i];
    UseSplits(p.vms, i, vm, true);
    UseSplits(p.vms, i, Happen(vm, CancelAll), true);
    assert p.vms[i := vm] == p.vms;
  }

  /** A head that leaves its queue without the machine being saved keeps the quota unless it was the
      last one, was to give resources back, and the others have taken its room. */
  lemma UnsavedKeepsQuotaIff(p: Pool, i: nat)
    requires Inv(p) && i < |p.vms|
    ensures var vm := p.vms[i];
            Within(Allocated(Apply(p, One(i, Unsaved)).vms, None, true), p.quota) <==>
            !(|vm.queue| == 1 && ConsumesResources(Effective(vm.state)) && !ConsumesResources(PendingState(vm))) ||
            Within(Plus(Allocated(p.vms, Some(vm.id), true), Usage(vm.cpus, vm.memory, 1, 1)), p.quota)
  {
    var vm := p.vms[i];
    UseSplits(p.vms, i, vm, true);
    UseSplits(p.vms, i, Happen(vm, Unsaved), true);
    assert p.vms[i := vm] == p.vms;
    if vm.queue != [] {
      FailedHeadKeepsChainIff(vm);
    }
  }

  lemma UseOfTwo(a: Vm, b: Vm)
    requires a.id != b.id
    ensures Allocated([a, b], None, true) == Plus(Share(a, PendingState(a)), Share(b, PendingState(b)))
    ensures Allocated([a, b], Some(a.id), true) == Share(b, PendingState(b))
    ensures Allocated([a, b], Some(b.id), true) == Share(a, PendingState(a))
  {
    hide Share, PendingState;
    assert [] + [a] == [a] && [a] + [b] == [a, b];
    UseOfLast([], a, None, true);
    UseOfLast([a], b, None, true);
    UseOfLast([], a, Some(a.id), true);
    UseOfLast([a], b, Some(a.id), true);
    UseOfLast([], a, Some(b.id), true);
    UseOfLast([a], b, Some(b.id), true);
  }

  const ONE_MACHINE := Quota(None, None, None, Some(1))
  const SMALL_HOST := Host(1, 300000)

  /** Quota for one machine: A is started, then told to shut down; B is admitted in its place. */
  const TAKE_OVER: seq<PoolEvent> := [
    HostsChange([SMALL_HOST]), Create(1, 300000, true), One(0, Complete), One(0, Complete), One(0, Queue(ShutdownVm)),
    Create(1, 300000, true)
  ]

  lemma RunStep(p: Pool, events: seq<PoolEvent>, n: nat)
    requires 0 < n <= |events|
    ensures Run(p, events[..n]) == Apply(Run(p, events[..n - 1]), events[n - 1])
  {
    assert events[..n][..n - 1] == events[..n - 1];
  }

  /** Creating and starting a machine that is admitted. */
  lemma CreatedAndStarted(p: Pool, cpus: nat, memory: nat)
    requires ValidSize(p.quota, cpus, memory)
    requires ResourcesForStart(p.vms + [NewVm(p.nextId, cpus, memory)], p.quota, p.hosts,
                               NewVm(p.nextId, cpus, memory), true)
    ensures Apply(p, Create(cpus, memory, true)) ==
            p.(vms := p.vms + [Vm(p.nextId, Pending, [CreateVm, StartVm], cpus, memory)], nextId := p.nextId + 1)
  {
    hide ResourcesForStart, ValidSize, PendingState;
    var vm, created := NewVm(p.nextId, cpus, memory), Created(p, cpus, memory);
    NewVmStops(vm.id, cpus, memory);
    assert created.vms[|p.vms|] == vm;
    assert Enqueue(vm, StartVm) == Vm(p.nextId, Pending, [CreateVm, StartVm], cpus, memory);
    assert created.vms[|p.vms| := Enqueue(vm, StartVm)] == p.vms + [Enqueue(vm, StartVm)];
  }

  lemma NewVmStops(id: nat, cpus: nat, memory: nat)
    ensures PendingState(NewVm(id, cpus, memory)) == Stopped
  {}

  lemma OneHappens(p: Pool, vm: Vm, e: Event)
    requires p.vms == [vm] && (e.Queue? ==> e.action == ShutdownVm && PendingState(vm) == Running)
    ensures Apply(p, One(0, e)) == p.(vms := [Happen(vm, e)])
  {
    hide Happen, ResourcesForStart, PendingState;
    assert p.vms[0 := Happen(vm, e)] == [Happen(vm, e)];
    if e.Queue? {
      QueueHappens(vm);
    }
  }

  lemma QueueHappens(vm: Vm)
    requires PendingState(vm) == Running
    ensures Happen(vm, Queue(ShutdownVm)) == Enqueue(vm, ShutdownVm)
  {}

  lemma SmallHostSuffices(vms: seq<Vm>, vm: Vm)
    requires vm.cpus == 1 && vm.memory == 300000 && Allocated(vms, Some(vm.id), true) == Usage(0, 0, 0, 0)
    ensures ResourcesForStart(vms, ONE_MACHINE, [SMALL_HOST], vm, true)
  {
    hide ResourcesForStart, Allocated;
    assert SMALL_HOST in [SMALL_HOST];
    assert SomeHostHas([SMALL_HOST], 0, 300000) && SomeHostHas([SMALL_HOST], 1, 0);
    AdmittedIff(vms, ONE_MACHINE, [SMALL_HOST], vm, true);
  }

  lemma FirstCreated(p: Pool)
    requires p == Pool([], 0, ONE_MACHINE, [SMALL_HOST])
    ensures Apply(p, Create(1, 300000, true)) ==
            Pool([Vm(0, Pending, [CreateVm, StartVm], 1, 300000)], 1, ONE_MACHINE, [SMALL_HOST])
  {
    hide ResourcesForStart, PendingState;
    var vm := NewVm(0, 1, 300000);
    UseOfLast([], vm, Some(0), true);
    SmallHostSuffices([] + [vm], vm);
    CreatedAndStarted(p, 1, 300000);
  }

  lemma SecondCreated(p: Pool)
    requires p == Pool([Vm(0, Running, [ShutdownVm], 1, 300000)], 1, ONE_MACHINE, [SMALL_HOST])
    ensures Apply(p, Create(1, 300000, true)) ==
            Pool([p.vms[0], Vm(1, Pending, [CreateVm, StartVm], 1, 300000)], 2, ONE_MACHINE, [SMALL_HOST])
  {
    hide ResourcesForStart, Allocated;
    var a, vm := p.vms[0], NewVm(1, 1, 300000);
    assert PendingState(a) == Stopped && p.vms + [vm] == [a, vm];
    UseOfTwo(a, vm);
    SmallHostSuffices([a, vm], vm);
    CreatedAndStarted(p, 1, 300000);
  }

  lemma TakenOver()
    ensures Run(Pool([], 0, ONE_MACHINE, []), TAKE_OVER) ==
            Pool([Vm(0, Running, [ShutdownVm], 1, 300000), Vm(1, Pending, [CreateVm, StartVm], 1, 300000)], 2,
                 ONE_MACHINE, [SMALL_HOST])
  {
    hide Apply, Happen;
    var e, start := TAKE_OVER, Pool([], 0, ONE_MACHINE, []);
    assert Run(start, e[..0]) == start;
    RunStep(start, e, 1);
    HostsChanged(start);
    RunStep(start, e, 2);
    FirstCreated(Run(start, e[..1]));
    RunStep(start, e, 3);
    StartsAndShutsDown();
    OneHappens(Run(start, e[..2]), Vm(0, Pending, [CreateVm, StartVm], 1, 300000), Complete);
    RunStep(start, e, 4);
    OneHappens(Run(start, e[..3]), Vm(0, Stopped, [StartVm], 1, 300000), Complete);
    RunStep(start, e, 5);
    OneHappens(Run(start, e[..4]), Vm(0, Running, [], 1, 300000), Queue(ShutdownVm));
    RunStep(start, e, 6);
    SecondCreated(Run(start, e[..5]));
    assert e[..6] == e;
  }

  lemma HostsChanged(p: Pool)
    ensures Apply(p, HostsChange([SMALL_HOST])) == p.(hosts := [SMALL_HOST])
  {}

  lemma StartsAndShutsDown()
    ensures Happen(Vm(0, Pending, [CreateVm, StartVm], 1, 300000), Complete) == Vm(0, Stopped, [StartVm], 1, 300000)
    ensures Happen(Vm(0, Stopped, [StartVm], 1, 300000), Complete) == Vm(0, Running, [], 1, 300000)
    ensures PendingState(Vm(0, Running, [], 1, 300000)) == Running
    ensures Happen(Vm(0, Running, [], 1, 300000), Queue(ShutdownVm)) == Vm(0, Running, [ShutdownVm], 1, 300000)
  {
    assert [] + [ShutdownVm] == [ShutdownVm];
  }

  /** Then A keeps running: its queue is cancelled, or its shutdown finishes without being saved. */
  lemma CancelCanExceedQuota()
    ensures var p := Run(Pool([], 0, ONE_MACHINE, []), TAKE_OVER);
            Within(Allocated(p.vms, None, true), p.quota) && |p.vms| == 2 &&
            !Within(Allocated(Apply(p, One(0, CancelAll)).vms, None, true), p.quota) &&
            !Within(Allocated(Apply(p, One(0, Unsaved)).vms, None, true), p.quota)
  {
    hide Run, Apply, Allocated, Within;
    TakenOver();
    var p := Run(Pool([], 0, ONE_MACHINE, []), TAKE_OVER);
    assert AllOrderly(TAKE_OVER);
    QuotaIsNeverExceeded(ONE_MACHINE, [], TAKE_OVER);
    NoRoomLeft(p);
    CancelKeepsQuotaIff(p, 0);
    UnsavedKeepsQuotaIff(p, 0);
  }

  lemma NoRoomLeft(p: Pool)
    requires p.vms == [Vm(0, Running, [ShutdownVm], 1, 300000), Vm(1, Pending, [CreateVm, StartVm], 1, 300000)]
    requires p.quota == ONE_MACHINE
    ensures PendingState(p.vms[0]) == Stopped
    ensures !Within(Plus(Allocated(p.vms, Some(0), true), Usage(1, 300000, 1, 1)), p.quota)
  {
    hide Allocated;
    var a, b := p.vms[0], p.vms[1];
    assert PendingState(a) == Stopped && PendingState(b) == Running;
    UseOfTwo(a, b);
    assert p.vms == [a, b];
  }
}
