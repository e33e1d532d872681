/** Choosing a host for a machine: the capable hosts of the pool in turn. */
module HostScheduler {
  import opened Util

  datatype Error = NoCapableHost

  datatype Host = Host(id: nat, hostname: string, isDisabled: Option<int>)

  /** A node as the message bus reports it. */
  datatype Node = Node(objectId: nat, cores: nat, memory: nat)

  /** The machine's domain on the bus, when it has one. */
  datatype Domain = Domain(active: bool, node: nat)

  datatype Vm = Vm(cpus: nat, memory: nat, domain: Option<Domain>)

  predicate Capable(vm: Vm, nodes: map<string, Node>, h: Host) {
    h.hostname in nodes &&
    var node := nodes[h.hostname];
    node.cores >= vm.cpus && node.memory >= vm.memory &&
    h.isDisabled == Some(0) &&
    (vm.domain.None? || !vm.domain.value.active || vm.domain.value.node != node.objectId)
  }

  function CapableHosts(vm: Vm, nodes: map<string, Node>, hosts: seq<Host>): (r: seq<Host>)
    ensures forall h :: h in r <==> h in hosts && Capable(vm, nodes, h)
  {
    if hosts == [] then []
    else
      var before, last := CapableHosts(vm, nodes, hosts[..|hosts| - 1]), hosts[|hosts| - 1];
      assert hosts == hosts[..|hosts| - 1] + [last];
      if Capable(vm, nodes, last) then before + [last] else before
  }

  function Pick(capable: seq<Host>, counter: nat): Result<Host, Error> {
    if capable == [] then Err(NoCapableHost) else Ok(capable[counter % |capable|])
  }

  class TaskOmatic {
    var nthHost: nat

    constructor ()
      ensures nthHost == 0
    {
      nthHost := 0;
    }

    /** `find_capable_host`; the counter only moves when a host is found. */
    method FindCapableHost(vm: Vm, nodes: map<string, Node>, hosts: seq<Host>) returns (r: Result<Host, Error>)
      modifies this
      ensures r == Pick(CapableHosts(vm, nodes, hosts), old(nthHost))
      ensures nthHost == if r.Ok? then old(nthHost) + 1 else old(nthHost)
    {
      var possible := [];
      var i := 0;
      while i < |hosts|
        invariant 0 <= i <= |hosts|
        invariant possible == CapableHosts(vm, nodes, hosts[..i])
      {
        var curr := hosts[i];
        assert hosts[..i + 1][..i] == hosts[..i];
        if curr.hostname in nodes {
          var node := nodes[curr.hostname];
          if node.cores >= vm.cpus && node.memory >= vm.memory && curr.isDisabled == Some(0) &&
             (vm.domain.None? || !vm.domain.value.active || vm.domain.value.node != node.objectId) {
            possible := possible + [curr];
          }
        }
        i := i + 1;
      }
      assert hosts[..i] == hosts;
      if |possible| == 0 {
        return Err(NoCapableHost);
      }
      r := Ok(possible[nthHost % |possible|]);
      nthHost := nthHost + 1;
    }
  }

  /** It fails exactly when no host qualifies, and otherwise returns one that does. */
  lemma FailsIffNoneCapable(vm: Vm, nodes: map<string, Node>, hosts: seq<Host>, counter: nat)
    ensures var r := Pick(CapableHosts(vm, nodes, hosts), counter);
            (r.Err? <==> forall h :: h in hosts ==> !Capable(vm, nodes, h)) &&
            (r.Ok? ==> r.value in hosts && Capable(vm, nodes, r.value))
  {}

  /** The capable hosts come in the order of the pool, each as often as it is there. */
  lemma {:induction false} CapableInOrder(vm: Vm, nodes: map<string, Node>, a: seq<Host>, b: seq<Host>)
    ensures CapableHosts(vm, nodes, a + b) == CapableHosts(vm, nodes, a) + CapableHosts(vm, nodes, b)
    ensures forall h :: b == [h] ==> CapableHosts(vm, nodes, b) == if Capable(vm, nodes, h) then [h] else []
  {
    if b == [] {
      assert a + b == a;
    } else {
      var init := b[..|b| - 1];
      assert (a + b)[..|a + b| - 1] == a + init;
      CapableInOrder(vm, nodes, a, init);
    }
  }

  /** The hosts returned by consecutive calls while the capable hosts stay the same. */
  function Picks(capable: seq<Host>, counter: nat, calls: nat): seq<Host>
    requires capable != []
  {
    if calls == 0 then [] else Picks(capable, counter, calls - 1) + [Pick(capable, counter + calls - 1).value]
  }

  lemma {:induction false} PicksRotate(capable: seq<Host>, counter: nat, calls: nat)
    requires capable != [] && calls <= |capable|
    ensures var s := counter % |capable|;
            Picks(capable, counter, calls) == (capable[s..] + capable[..s])[..calls]
  {
    if calls > 0 {
      PicksRotate(capable, counter, calls - 1);
      var s := counter % |capable|;
      var turned := capable[s..] + capable[..s];
      assert (counter + calls - 1) % |capable| ==
             if s + calls - 1 < |capable| then s + calls - 1 else s + calls - 1 - |capable| by {
        ModPlus(counter, calls - 1, |capable|);
      }
      assert turned[..calls] == turned[..calls - 1] + [turned[calls - 1]];
    }
  }

  lemma ModPlus(a: nat, b: nat, n: nat)
    requires b < n
    ensures (a + b) % n == if a % n + b < n then a % n + b else a % n + b - n
  {
    var q := a / n;
    assert a == q * n + a % n;
    if a % n + b < n {
      ModUnique(a + b, q, a % n + b, n);
    } else {
      assert (q + 1) * n == q * n + n;
      ModUnique(a + b, q + 1, a % n + b - n, n);
    }
  }

  lemma MulGrows(a: int, b: int, n: nat)
    requires a <= b
    ensures a * n <= b * n
  {}

  lemma ModUnique(x: nat, q: nat, r: nat, n: nat)
    requires r < n && x == q * n + r
    ensures x % n == r
  {
    var k := x / n;
    assert x == k * n + x % n;
    assert (q + 1) * n == q * n + n && (k + 1) * n == k * n + n;
    if k > q {
      MulGrows(q + 1, k, n);
    } else if k < q {
      MulGrows(k + 1, q, n);
    }
  }

  /** Any n consecutive calls over n capable hosts return each of them exactly once, whatever the
      counter starts at. */
  lemma EachHostOncePerRound(capable: seq<Host>, counter: nat)
    requires capable != []
    ensures multiset(Picks(capable, counter, |capable|)) == multiset(capable)
  {
    var s := counter % |capable|;
    PicksRotate(capable, counter, |capable|);
    var turned := capable[s..] + capable[..s];
    assert turned[..|capable|] == turned;
    assert capable == capable[..s] + capable[s..];
  }
}
