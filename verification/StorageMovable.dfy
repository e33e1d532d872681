/** Storage pools hold volumes, and a volume may carry an LVM pool with volumes of its own.  A
    pool can be moved when no machine is attached to any volume in or below it. */
module StorageMovable {
  import opened Util

  /** `vms` counts the attached machines; `lvm` is the LVM pool carved out of the volume. */
  datatype Volume = Volume(vms: nat, lvm: Option<nat>)

  datatype Storage = Storage(pools: map<nat, seq<nat>>, volumes: map<nat, Volume>)

  ghost predicate WellFormed(s: Storage) {
    (forall p, v :: p in s.pools && v in s.pools[p] ==> v in s.volumes) &&
    (forall v :: v in s.volumes && s.volumes[v].lvm.Some? ==> s.volumes[v].lvm.value in s.pools)
  }

  /** Pool `q` is carved out of a volume of pool `p`. */
  ghost predicate Carries(s: Storage, p: nat, q: nat) {
    p in s.pools && exists v :: v in s.pools[p] && v in s.volumes && s.volumes[v].lvm == Some(q)
  }

  ghost predicate Chain(s: Storage, pools: seq<nat>) {
    forall i :: 0 <= i < |pools| - 1 ==> Carries(s, pools[i], pools[i + 1])
  }

  /** No pool is carved, over any number of steps, out of itself. */
  ghost predicate Acyclic(s: Storage) {
    forall c: seq<nat> :: |c| >= 2 && Chain(s, c) ==> c[0] != c[|c| - 1]
  }

  // ---------- the code ----------

  /** The pools entered so far, from the outermost to the present one. */
  ghost predicate Entered(s: Storage, trail: seq<nat>, p: nat) {
    trail != [] && trail[|trail| - 1] == p && Chain(s, trail) && forall q :: q in trail ==> q in s.pools
  }

  /** `StoragePool#movable?`.  The ghost trail records the calls in progress; that it never
      repeats a pool is what makes the recursion end. */
  predicate PoolMovable(s: Storage, p: nat, ghost trail: seq<nat>)
    requires WellFormed(s) && Acyclic(s) && Entered(s, trail, p)
    decreases |s.pools.Keys - Set(trail)|, 1, 0
  {
    VolumesMovable(s, p, s.pools[p], trail)
  }

  /** The loop over the volumes, with its early return. */
  predicate VolumesMovable(s: Storage, p: nat, vols: seq<nat>, ghost trail: seq<nat>)
    requires WellFormed(s) && Acyclic(s) && Entered(s, trail, p)
    requires forall v :: v in vols ==> v in s.pools[p]
    decreases |s.pools.Keys - Set(trail)|, 0, |vols|
  {
    vols == [] || (VolumeMovable(s, p, vols[0], trail) && VolumesMovable(s, p, vols[1..], trail))
  }

  /** `StorageVolume#movable?`. */
  predicate VolumeMovable(s: Storage, p: nat, v: nat, ghost trail: seq<nat>)
    requires WellFormed(s) && Acyclic(s) && Entered(s, trail, p) && v in s.pools[p]
    decreases |s.pools.Keys - Set(trail)|, 0, 0
  {
    var vol := s.volumes[v];
    if vol.vms > 0 then false
    else if vol.lvm.None? then true
    else
      EnterPool(s, trail, p, v);
      PoolMovable(s, vol.lvm.value, trail + [vol.lvm.value])
  }

  ghost function Set(trail: seq<nat>): set<nat> {
    set q | q in trail
  }

  lemma ChainLonger(s: Storage, trail: seq<nat>, q: nat)
    requires trail != [] && Chain(s, trail) && Carries(s, trail[|trail| - 1], q)
    ensures Chain(s, trail + [q])
  {}

  lemma ChainSuffix(s: Storage, trail: seq<nat>, i: nat)
    requires i <= |trail| && Chain(s, trail)
    ensures Chain(s, trail[i..])
  {}

  /** An LVM pool reached from the present one was not entered before: that would be a cycle. */
  lemma NotEntered(s: Storage, trail: seq<nat>, q: nat)
    requires Acyclic(s) && trail != [] && Chain(s, trail) && Carries(s, trail[|trail| - 1], q)
    ensures q !in trail
  {
    ChainLonger(s, trail, q);
    forall i | 0 <= i < |trail|
      ensures trail[i] != q
    {
      ChainSuffix(s, trail + [q], i);
      var c := (trail + [q])[i..];
      assert c[0] == trail[i] && c[|c| - 1] == q;
    }
  }

  lemma EnterPool(s: Storage, trail: seq<nat>, p: nat, v: nat)
    requires WellFormed(s) && Acyclic(s) && Entered(s, trail, p) && v in s.pools[p] && s.volumes[v].lvm.Some?
    ensures var q := s.volumes[v].lvm.value;
            Entered(s, trail + [q], q) && |s.pools.Keys - Set(trail + [q])| < |s.pools.Keys - Set(trail)|
  {
    var q := s.volumes[v].lvm.value;
    assert Carries(s, p, q);
    ChainLonger(s, trail, q);
    NotEntered(s, trail, q);
    assert Set(trail + [q]) == Set(trail) + {q};
    Smaller(s.pools.Keys - Set(trail + [q]), s.pools.Keys - Set(trail), q);
  }

  lemma Smaller(a: set<nat>, b: set<nat>, q: nat)
    requires a <= b && q in b && q !in a
    ensures |a| < |b|
  {
    var rest := b - {q};
    assert a <= rest;
    SubsetSize(a, rest);
  }

  lemma {:induction false} SubsetSize(a: set<nat>, b: set<nat>)
    requires a <= b
    ensures |a| <= |b|
  {
    if a != {} {
      var x :| x in a;
      SubsetSize(a - {x}, b - {x});
    }
  }

  // ---------- the meaning ----------

  /** A volume path: the first volume lies in pool `p`, each further one in the LVM pool carved
      out of the one before. */
  ghost predicate Path(s: Storage, p: nat, path: seq<nat>)
    decreases |path|
  {
    path != [] && p in s.pools && path[0] in s.pools[p] && path[0] in s.volumes &&
    (|path| > 1 ==> s.volumes[path[0]].lvm.Some? && Path(s, s.volumes[path[0]].lvm.value, path[1..]))
  }

  ghost predicate Reachable(s: Storage, p: nat, v: nat) {
    exists path :: Path(s, p, path) && path[|path| - 1] == v
  }

  ghost predicate Unused(s: Storage, p: nat) {
    forall v :: Reachable(s, p, v) ==> v in s.volumes && s.volumes[v].vms == 0
  }

  ghost predicate ReachableThrough(s: Storage, p: nat, v: nat, x: nat) {
    p in s.pools && v in s.pools[p] && v in s.volumes &&
    (v == x || (s.volumes[v].lvm.Some? && Reachable(s, s.volumes[v].lvm.value, x)))
  }

  /** What is reachable through one volume of a pool: the volume and what its LVM pool reaches. */
  lemma ReachableSplits(s: Storage, p: nat, x: nat)
    requires p in s.pools
    ensures Reachable(s, p, x) <==> exists v :: ReachableThrough(s, p, v, x)
  {
    if Reachable(s, p, x) {
      var path :| Path(s, p, path) && path[|path| - 1] == x;
      var v := path[0];
      if |path| > 1 {
        assert Path(s, s.volumes[v].lvm.value, path[1..]) && path[1..][|path[1..]| - 1] == x;
      }
      assert ReachableThrough(s, p, v, x);
    }
    if exists v :: ReachableThrough(s, p, v, x) {
      var v :| ReachableThrough(s, p, v, x);
      if v == x {
        assert Path(s, p, [v]) && [v][0] == x;
      } else {
        var path :| Path(s, s.volumes[v].lvm.value, path) && path[|path| - 1] == x;
        var longer := [v] + path;
        assert longer[1..] == path;
        assert Path(s, p, longer) && longer[|longer| - 1] == x;
      }
    }
  }

  ghost predicate VolumeUnused(s: Storage, v: nat)
    requires WellFormed(s) && v in s.volumes
  {
    s.volumes[v].vms == 0 && (s.volumes[v].lvm.Some? ==> Unused(s, s.volumes[v].lvm.value))
  }

  lemma UnusedSplits(s: Storage, p: nat)
    requires WellFormed(s) && p in s.pools
    ensures Unused(s, p) <==> forall v :: v in s.pools[p] ==> VolumeUnused(s, v)
  {
    if Unused(s, p) {
      forall v | v in s.pools[p]
        ensures VolumeUnused(s, v)
      {
        assert ReachableThrough(s, p, v, v);
        ReachableSplits(s, p, v);
        if s.volumes[v].lvm.Some? {
          forall x | Reachable(s, s.volumes[v].lvm.value, x)
            ensures x in s.volumes && s.volumes[x].vms == 0
          {
            assert ReachableThrough(s, p, v, x);
            ReachableSplits(s, p, x);
          }
        }
      }
    }
    if forall v :: v in s.pools[p] ==> VolumeUnused(s, v) {
      forall x | Reachable(s, p, x)
        ensures x in s.volumes && s.volumes[x].vms == 0
      {
        ReachableSplits(s, p, x);
        var v :| ReachableThrough(s, p, v, x);
        assert VolumeUnused(s, v);
      }
    }
  }

  lemma {:induction false} PoolMovableMeans(s: Storage, p: nat, trail: seq<nat>)
    requires WellFormed(s) && Acyclic(s) && Entered(s, trail, p)
    ensures PoolMovable(s, p, trail) <==> Unused(s, p)
    decreases |s.pools.Keys - Set(trail)|, 1, 0
  {
    VolumesMovableMeans(s, p, s.pools[p], trail);
    UnusedSplits(s, p);
  }

  lemma {:induction false} VolumesMovableMeans(s: Storage, p: nat, vols: seq<nat>, trail: seq<nat>)
    requires WellFormed(s) && Acyclic(s) && Entered(s, trail, p)
    requires forall v :: v in vols ==> v in s.pools[p]
    ensures VolumesMovable(s, p, vols, trail) <==> forall v :: v in vols ==> VolumeUnused(s, v)
    decreases |s.pools.Keys - Set(trail)|, 0, |vols|
  {
    if vols != [] {
      VolumeMovableMeans(s, p, vols[0], trail);
      VolumesMovableMeans(s, p, vols[1..], trail);
      assert forall v :: v in vols <==> v == vols[0] || v in vols[1..];
    }
  }

  lemma {:induction false} VolumeMovableMeans(s: Storage, p: nat, v: nat, trail: seq<nat>)
    requires WellFormed(s) && Acyclic(s) && Entered(s, trail, p) && v in s.pools[p]
    ensures VolumeMovable(s, p, v, trail) <==> VolumeUnused(s, v)
    decreases |s.pools.Keys - Set(trail)|, 0, 0
  {
    if s.volumes[v].lvm.Some? {
      EnterPool(s, trail, p, v);
      PoolMovableMeans(s, s.volumes[v].lvm.value, trail + [s.volumes[v].lvm.value]);
    }
  }

  /** On any acyclic storage, of any depth, the recursion ends and answers true exactly when no
      machine is attached to any volume reachable through volumes and their LVM pools. */
  lemma MovableIffUnused(s: Storage, p: nat)
    requires WellFormed(s) && Acyclic(s) && p in s.pools
    ensures Entered(s, [p], p)
    ensures PoolMovable(s, p, [p]) <==> forall v :: Reachable(s, p, v) ==> v in s.volumes && s.volumes[v].vms == 0
  {
    PoolMovableMeans(s, p, [p]);
  }
}
