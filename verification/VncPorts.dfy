/** Allocation of forward VNC ports: the first gap in the ascending list of stored ports. */
module VncPorts {
  import opened Util

  const FORWARD_VNC_PORT_START: nat := 5901

  predicate Ascending(ports: seq<nat>) {
    forall i, j :: 0 <= i < j < |ports| ==> ports[i] <= ports[j]
  }

  // ---------- the query ----------

  function InsertSorted(x: nat, ports: seq<nat>): (r: seq<nat>)
    requires Ascending(ports)
    ensures Ascending(r) && forall p :: p in r <==> p == x || p in ports
  {
    if ports == [] || ports[|ports| - 1] <= x then ports + [x]
    else
      var n := |ports| - 1;
      var before := InsertSorted(x, ports[..n]);
      assert ports == ports[..n] + [ports[n]];
      assert forall j :: 0 <= j < |before| ==> before[j] in before;
      before + [ports[n]]
  }

  /** The ports that are not null, ascending: one entry per machine that has one. */
  function StoredPorts(vms: seq<Option<nat>>): (r: seq<nat>)
    ensures Ascending(r) && forall p :: p in r <==> Some(p) in vms
  {
    if vms == [] then []
    else
      var before, last := StoredPorts(vms[..|vms| - 1]), vms[|vms| - 1];
      assert vms == vms[..|vms| - 1] + [last];
      if last.None? then before else InsertSorted(last.value, before)
  }

  lemma {:induction false} InsertSortedAdds(x: nat, ports: seq<nat>)
    requires Ascending(ports)
    ensures multiset(InsertSorted(x, ports)) == multiset(ports) + multiset{x}
  {
    if ports != [] && ports[|ports| - 1] > x {
      var init, last := ports[..|ports| - 1], ports[|ports| - 1];
      InsertSortedAdds(x, init);
      assert InsertSorted(x, ports) == InsertSorted(x, init) + [last];
      assert ports == init + [last];
    }
  }

  function Values(vms: seq<Option<nat>>): multiset<nat> {
    if vms == [] then multiset{}
    else
      Values(vms[..|vms| - 1]) + if vms[|vms| - 1].Some? then multiset{vms[|vms| - 1].value} else multiset{}
  }

  /** The query returns every stored port as often as it is stored. */
  lemma {:induction false} StoredPortsComplete(vms: seq<Option<nat>>)
    ensures multiset(StoredPorts(vms)) == Values(vms)
  {
    if vms != [] {
      StoredPortsComplete(vms[..|vms| - 1]);
      if vms[|vms| - 1].Some? {
        InsertSortedAdds(vms[|vms| - 1].value, StoredPorts(vms[..|vms| - 1]));
      }
    }
  }

  // ---------- the scan ----------

  function Scan(ports: seq<nat>, i: nat): nat {
    if ports == [] || ports[0] > i then i else Scan(ports[1..], i + 1)
  }

  function Available(vms: seq<Option<nat>>): nat {
    Scan(StoredPorts(vms), FORWARD_VNC_PORT_START)
  }

  /** `available_forward_vnc_port`. */
  method AvailableForwardVncPort(vms: seq<Option<nat>>) returns (i: nat)
    ensures i == Available(vms)
  {
    i := FORWARD_VNC_PORT_START;
    var ports := StoredPorts(vms);
    var k := 0;
    while k < |ports|
      invariant 0 <= k <= |ports|
      invariant Scan(ports[k..], i) == Available(vms)
    {
      if ports[k] > i {
        break;
      }
      i := i + 1;
      k := k + 1;
    }
  }

  /** The scan passes some ports, each below the result, and stops before those above it. */
  lemma {:induction false} ScanStops(ports: seq<nat>, i: nat)
    requires Ascending(ports)
    ensures var k := Scan(ports, i) - i;
            0 <= k <= |ports| && (forall j :: 0 <= j < k ==> ports[j] <= i + j) &&
            (forall j :: k <= j < |ports| ==> ports[j] > i + k)
    decreases |ports|
  {
    if ports != [] && ports[0] <= i {
      var rest := ports[1..];
      ScanStops(rest, i + 1);
      assert forall j :: 1 <= j < |ports| ==> ports[j] == rest[j - 1];
    }
  }

  /** Whatever is stored, zeros and duplicates included, the port found is used by no machine. */
  lemma AvailableIsUnused(vms: seq<Option<nat>>)
    ensures Available(vms) >= FORWARD_VNC_PORT_START && Some(Available(vms)) !in vms
  {
    ScanStops(StoredPorts(vms), FORWARD_VNC_PORT_START);
  }

  ghost predicate LeastFree(ports: seq<nat>, m: nat) {
    m >= FORWARD_VNC_PORT_START && m !in ports &&
    forall q :: FORWARD_VNC_PORT_START <= q < m ==> q in ports
  }

  function CountBelow(ports: seq<nat>, m: nat): nat {
    if ports == [] then 0 else CountBelow(ports[..|ports| - 1], m) + if ports[|ports| - 1] < m then 1 else 0
  }

  lemma {:induction false} CountIsPrefix(ports: seq<nat>, m: nat, k: nat)
    requires k <= |ports|
    requires forall j :: 0 <= j < k ==> ports[j] < m
    requires forall j :: k <= j < |ports| ==> ports[j] >= m
    ensures CountBelow(ports, m) == k
  {
    if ports != [] {
      CountIsPrefix(ports[..|ports| - 1], m, if k == |ports| then k - 1 else k);
    }
  }

  lemma {:induction false} PrefixBelow(ports: seq<nat>, m: nat) returns (k: nat)
    requires Ascending(ports)
    ensures k == CountBelow(ports, m) <= |ports|
    ensures forall j :: 0 <= j < k ==> ports[j] < m
    ensures forall j :: k <= j < |ports| ==> ports[j] >= m
  {
    k := 0;
    while k < |ports| && ports[k] < m
      invariant 0 <= k <= |ports| && forall j :: 0 <= j < k ==> ports[j] < m
    {
      k := k + 1;
    }
    CountIsPrefix(ports, m, k);
  }

  /** The port found is the least free one exactly when as many stored ports lie below that one
      as there are ports from 5901 up to it: no stray zero and no duplicate below it. */
  lemma LeastFreeIff(ports: seq<nat>, m: nat)
    requires Ascending(ports) && LeastFree(ports, m)
    ensures Scan(ports, FORWARD_VNC_PORT_START) >= m
    ensures Scan(ports, FORWARD_VNC_PORT_START) == m <==> CountBelow(ports, m) == m - FORWARD_VNC_PORT_START
  {
    var r := Scan(ports, FORWARD_VNC_PORT_START);
    var k := r - FORWARD_VNC_PORT_START;
    ScanStops(ports, FORWARD_VNC_PORT_START);
    assert r !in ports;
    CountIsPrefix(ports, r, k);
    if CountBelow(ports, m) == m - FORWARD_VNC_PORT_START {
      var c := PrefixBelow(ports, m);
      assert c < |ports| ==> ports[c] in ports;
      if r > m {
        assert false;
      }
    }
  }

  /** Distinct ports from 5901 on give the least free port. */
  lemma {:induction false} DistinctPortsGiveLeast(ports: seq<nat>, i: nat)
    requires forall j, k :: 0 <= j < k < |ports| ==> ports[j] < ports[k]
    requires forall j :: 0 <= j < |ports| ==> ports[j] >= i
    ensures Scan(ports, i) >= i && Scan(ports, i) !in ports
    ensures forall q :: i <= q < Scan(ports, i) ==> q in ports
    decreases |ports|
  {
    if ports != [] && ports[0] <= i {
      var rest := ports[1..];
      DistinctPortsGiveLeast(rest, i + 1);
      assert ports == [ports[0]] + rest;
    }
  }

  // ---------- runs ----------

  datatype Event = Allocate(vm: nat) | Deallocate(vm: nat)

  /** Each allocation happens under a table lock, so each event is one step. */
  function Step(vms: seq<Option<nat>>, e: Event): seq<Option<nat>> {
    if e.vm >= |vms| then vms
    else
      match e
      case Allocate(v) => vms[v := Some(Available(vms))]
      case Deallocate(v) => vms[v := None]
  }

  function Run(vms: seq<Option<nat>>, events: seq<Event>): seq<Option<nat>> {
    if events == [] then vms else Step(Run(vms, events[..|events| - 1]), events[|events| - 1])
  }

  /** No two machines hold the same port; zero is the column's default, not a port. */
  ghost predicate PortsDistinct(vms: seq<Option<nat>>) {
    forall j, k :: 0 <= j < k < |vms| && vms[j].Some? && vms[k].Some? && vms[j].value != 0 ==>
      vms[j].value != vms[k].value
  }

  ghost predicate PortsInRange(vms: seq<Option<nat>>) {
    forall k :: 0 <= k < |vms| ==> vms[k].Some? && vms[k].value != 0 ==> vms[k].value >= FORWARD_VNC_PORT_START
  }

  /** What an allocation and a deallocation do to the table. */
  lemma StepOutcome(vms: seq<Option<nat>>, e: Event)
    ensures |Step(vms, e)| == |vms| && forall k :: 0 <= k < |vms| && k != e.vm ==> Step(vms, e)[k] == vms[k]
    ensures e.vm < |vms| && e.Allocate? ==>
              Step(vms, e)[e.vm].Some? && Step(vms, e)[e.vm].value >= FORWARD_VNC_PORT_START && Step(vms, e)[e.vm] !in vms
    ensures e.vm < |vms| && e.Deallocate? ==> Step(vms, e)[e.vm] == None
  {
    AvailableIsUnused(vms);
  }

  /** Ports in use stay distinct and in range, so the validations on them never reject a save. */
  lemma {:induction false} PortsStayDistinct(vms: seq<Option<nat>>, events: seq<Event>)
    requires PortsDistinct(vms) && PortsInRange(vms)
    ensures PortsDistinct(Run(vms, events)) && PortsInRange(Run(vms, events))
  {
    if events != [] {
      PortsStayDistinct(vms, events[..|events| - 1]);
      AvailableIsUnused(Run(vms, events[..|events| - 1]));
    }
  }

  class VmTable {
    var ports: seq<Option<nat>>

    constructor (n: nat)
      ensures ports == seq(n, _ => Some(0))
    {
      ports := seq(n, _ => Some(0));
    }

    /** The port given is held by no machine, and the other machines keep theirs. */
    method AllocateForwardVncPort(vm: nat)
      requires vm < |ports|
      modifies this
      ensures ports == Step(old(ports), Allocate(vm))
      ensures |ports| == |old(ports)| && forall k :: 0 <= k < |ports| && k != vm ==> ports[k] == old(ports)[k]
      ensures ports[vm].Some? && ports[vm].value >= FORWARD_VNC_PORT_START && ports[vm] !in old(ports)
    {
      var port := AvailableForwardVncPort(ports);
      AvailableIsUnused(ports);
      ports := ports[vm := Some(port)];
    }

    /** The machine's port is free again: no machine holds it any more, and the others keep theirs. */
    method DeallocateForwardVncPort(vm: nat)
      requires vm < |ports|
      modifies this
      ensures |ports| == |old(ports)| && forall k :: 0 <= k < |ports| && k != vm ==> ports[k] == old(ports)[k]
      ensures ports[vm] == None
      ensures PortsDistinct(old(ports)) ==> PortsDistinct(ports)
      ensures PortsDistinct(old(ports)) && old(ports)[vm].Some? && old(ports)[vm].value != 0 ==> old(ports)[vm] !in ports
      ensures PortsInRange(old(ports)) ==> PortsInRange(ports)
    {
      ports := ports[vm := None];
    }

    /** `forward` up to the firewall rules; `open` is the answer of the port check.  The machine ends
        with a port of its own that nobody held, or, when that is already open, with none. */
    method Forward(vm: nat, open: bool) returns (ok: bool)
      requires vm < |ports|
      modifies this
      ensures ok == !open
      ensures |ports| == |old(ports)| && forall k :: 0 <= k < |ports| && k != vm ==> ports[k] == old(ports)[k]
      ensures ok ==> ports[vm].Some? && ports[vm].value >= FORWARD_VNC_PORT_START && ports[vm] !in old(ports)
      ensures !ok ==> ports[vm] == None
      ensures PortsDistinct(old(ports)) && PortsInRange(old(ports)) ==> PortsDistinct(ports) && PortsInRange(ports)
    {
      AvailableIsUnused(ports);
      AllocateForwardVncPort(vm);
      if open {
        DeallocateForwardVncPort(vm);
      }
      ok := !open;
    }
  }

  /** One machine with the column's default: its zero makes the scan skip 5901, which is free. */
  lemma DefaultSkipsPort()
    ensures Available([Some(0)]) == 5902 && LeastFree(StoredPorts([Some(0)]), 5901)
  {
    hide Scan;
    assert [Some(0)][..0] == [] && StoredPorts([Some(0)]) == [0];
    ScanOfZero();
  }

  lemma ScanOfZero()
    ensures Scan([0], 5901) == 5902
  {
    assert [0][1..] == [];
  }
}
