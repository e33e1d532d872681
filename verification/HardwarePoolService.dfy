/** Moving several hosts to another pool in one request: each host is moved or refused on its own,
    and the refusals are reported together. */
module HardwarePoolService {
  import opened Util
  import opened Membership
  import Permissions
  import PermissionRuns

  datatype Reason = HasVms | PermissionCheck | SaveRaised

  /** What the request finds for one host: the machines on it, whether saving it goes through, and
      the times at which its leave and its join are logged. */
  datatype Facts = Facts(vms: nat, saveOk: bool, leaveAt: int, joinAt: int)

  datatype Outcome = NoSuchPool | NotAuthorized | AllMoved | PartialSuccess

  const MODIFY := "modify"

  function CanModify(s: Permissions.Store, user: string, pool: nat): bool {
    PermissionRuns.HasPrivilege(s, pool, user, MODIFY)
  }

  /** Why the host stays where it is, if it does. */
  function Refusal(s: Permissions.Store, user: string, pool: nat, f: Facts): Option<Reason> {
    if f.vms != 0 then Some(HasVms)
    else if !CanModify(s, user, pool) then Some(PermissionCheck)
    else if !f.saveOk then Some(SaveRaised)
    else None
  }

  ghost predicate Ready(hosts: seq<Host>, facts: seq<Facts>)
    reads hosts
  {
    |facts| == |hosts| &&
    (forall i, j :: 0 <= i < j < |hosts| ==> hosts[i] != hosts[j]) &&
    (forall i :: 0 <= i < |hosts| ==> Timely(hosts[i], facts[i]))
  }

  /** The clock does not run backwards between the host's last join and this request. */
  ghost predicate Timely(h: Host, f: Facts)
    reads h
  {
    h.Valid() && h.stays[|h.stays| - 1].joined <= f.leaveAt <= f.joinAt
  }

  /** One host, judged by the pool it was in, is moved or left alone. */
  ghost predicate Treated(h: Host, was: seq<Stay>, refusal: Option<Reason>, target: nat, f: Facts)
    reads h
  {
    h.Valid() && was != [] &&
    h.stays == if refusal.None? && target != was[|was| - 1].pool
               then Moved(was, target, f.leaveAt, f.joinAt) else was
  }

  method MoveOne(s: Permissions.Store, user: string, target: nat, h: Host, f: Facts) returns (refusal: Option<Reason>)
    requires Timely(h, f)
    modifies h
    ensures refusal == Refusal(s, user, old(h.pool), f)
    ensures Treated(h, old(h.stays), refusal, target, f)
  {
    if f.vms != 0 {
      return Some(HasVms);
    }
    if !CanModify(s, user, h.pool) {
      return Some(PermissionCheck);
    }
    if !f.saveOk {
      return Some(SaveRaised);
    }
    h.Move(target, f.leaveAt, f.joinAt);
    refusal := None;
  }

  /** The loop over the hosts: every one is treated, and listed as moved or with its refusal. */
  method MoveEach(s: Permissions.Store, user: string, target: nat, hosts: seq<Host>, facts: seq<Facts>)
    returns (failed: map<Host, Reason>, successful: seq<Host>)
    requires Ready(hosts, facts)
    modifies hosts
    ensures |successful| + |failed| == |hosts|
    ensures forall i :: 0 <= i < |hosts| ==>
              Treated(hosts[i], old(hosts[i].stays), Refusal(s, user, old(hosts[i].pool), facts[i]), target, facts[i])
    ensures forall i :: 0 <= i < |hosts| ==>
              Listed(hosts[i], Refusal(s, user, old(hosts[i].pool), facts[i]), failed, successful)
  {
    hide Treated, Timely, Refusal;
    failed, successful := map[], [];
    var i := 0;
    while i < |hosts|
      invariant 0 <= i <= |hosts| && |successful| + |failed| == i
      invariant forall k :: i <= k < |hosts| ==> unchanged(hosts[k])
      invariant forall k :: i <= k < |hosts| ==> hosts[k] !in failed && hosts[k] !in successful
      invariant forall k :: 0 <= k < i ==>
        Treated(hosts[k], old(hosts[k].stays), Refusal(s, user, old(hosts[k].pool), facts[k]), target, facts[k])
      invariant forall k :: 0 <= k < i ==>
        Listed(hosts[k], Refusal(s, user, old(hosts[k].pool), facts[k]), failed, successful)
    {
      var refusal := MoveOne(s, user, target, hosts[i], facts[i]);
      if refusal.Some? {
        failed := failed[hosts[i] := refusal.value];
      } else {
        successful := successful + [hosts[i]];
      }
      i := i + 1;
    }
  }

  ghost predicate Listed(h: Host, refusal: Option<Reason>, failed: map<Host, Reason>, successful: seq<Host>) {
    match refusal
    case None => h in successful && h !in failed
    case Some(reason) => h !in successful && h in failed && failed[h] == reason
  }

  predicate Authorized(s: Permissions.Store, user: string, poolId: nat, target: nat) {
    target in s.pools && CanModify(s, user, target) && poolId in s.pools && CanModify(s, user, poolId)
  }

  /** `svc_move_items_internal` for hosts. */
  method MoveHosts(s: Permissions.Store, user: string, poolId: nat, target: nat, hosts: seq<Host>, facts: seq<Facts>)
    returns (outcome: Outcome, failed: map<Host, Reason>, successful: seq<Host>)
    requires Ready(hosts, facts)
    modifies hosts
    ensures outcome.NoSuchPool? || outcome.NotAuthorized? <==> !Authorized(s, user, poolId, target)
    ensures outcome.NoSuchPool? <==> target !in s.pools || (CanModify(s, user, target) && poolId !in s.pools)
    ensures !Authorized(s, user, poolId, target) ==> forall h :: h in hosts ==> unchanged(h)
    ensures Authorized(s, user, poolId, target) ==>
              (outcome.AllMoved? <==> failed == map[]) && |successful| + |failed| == |hosts| &&
              (forall i :: 0 <= i < |hosts| ==>
                 Treated(hosts[i], old(hosts[i].stays), Refusal(s, user, old(hosts[i].pool), facts[i]), target, facts[i])) &&
              (forall i :: 0 <= i < |hosts| ==>
                 Listed(hosts[i], Refusal(s, user, old(hosts[i].pool), facts[i]), failed, successful))
  {
    failed, successful := map[], [];
    if target !in s.pools {
      return NoSuchPool, failed, successful;
    }
    if !CanModify(s, user, target) {
      return NotAuthorized, failed, successful;
    }
    if poolId !in s.pools {
      return NoSuchPool, failed, successful;
    }
    if !CanModify(s, user, poolId) {
      return NotAuthorized, failed, successful;
    }
    failed, successful := MoveEach(s, user, target, hosts, facts);
    outcome := if failed == map[] then AllMoved else PartialSuccess;
  }

  /** A host changes its pool only for a user to whom the modify privilege was granted at or above
      the pool it leaves. */
  lemma MovedOnlyIfGranted(s: Permissions.Store, user: string, pool: nat, f: Facts)
    requires Permissions.Inv(s)
    ensures Refusal(s, user, pool, f) ==
            if f.vms != 0 then Some(HasVms)
            else if !PermissionRuns.GrantedAtOrAbove(s, pool, user, MODIFY) then Some(PermissionCheck)
            else if !f.saveOk then Some(SaveRaised)
            else None
  {
    PermissionRuns.PrivilegeIffGranted(s, pool, user, MODIFY);
  }
}
