/** What each call on pools and permissions leaves behind, row by row: when it goes through, what it
    adds or removes, and that everything else stays. */
module PermissionEffects {
  import opened Util
  import opened Permissions
  import opened PermissionRuns

  predicate NameFree(s: Store, parent: Option<nat>, name: string) {
    name != "" && forall p :: p in s.pools ==> s.pools[p] != Pool(parent, name)
  }

  /** Does the call go through? */
  predicate Possible(s: Store, op: Op) {
    match op
    case OpCreate(parent, name) =>
      parent in s.pools && NameFree(s, None, name) && NameFree(s, Some(parent), name)
    case OpGrant(pool, uid, role) =>
      uid != "" && role in s.roles && pool in s.pools &&
      forall i :: i in s.perms ==> !(s.perms[i].pool == pool && s.perms[i].uid == uid && s.perms[i].from.None?)
    case OpRevoke(id) => id in s.perms
    case OpUpdateRole(id, role) => id in s.perms && s.perms[id].from.None? && role in s.roles
    case OpDeletePool(pool, held) =>
      pool in s.pools && (forall p :: p in s.pools ==> s.pools[p].parent != Some(pool)) &&
      !held.isDefault && held.hosts == 0 && held.storagePools == 0
    case OpUserRoot(smartRoot, user, admin) =>
      (exists p :: p in s.pools && s.pools[p] == Pool(Some(smartRoot), user)) ||
      (smartRoot in s.pools && NameFree(s, None, user) && NameFree(s, Some(smartRoot), user) && admin in s.roles)
  }

  ghost predicate RowsKept(s: Store, t: Store) {
    forall i :: i in s.perms ==> i in t.perms && t.perms[i] == s.perms[i]
  }

  /** The row has the user and role of row `i`, and points at it, or where it points. */
  predicate IsCopy(row: Perm, perms: map<nat, Perm>, i: nat, pool: nat) {
    i in perms && row == Perm(pool, perms[i].uid, perms[i].role, Some(if perms[i].from.Some? then perms[i].from.value else i))
  }

  /** The derived rows added are the copies, on the new pool, of the rows of its parent. */
  ghost predicate Inherited(s: Store, t: Store, parent: nat) {
    (forall k :: k in t.perms && k !in s.perms && t.perms[k].from.Some? ==>
       exists i :: i in s.perms && s.perms[i].pool == parent && IsCopy(t.perms[k], s.perms, i, s.nextPool)) &&
    (forall i :: i in s.perms && s.perms[i].pool == parent ==>
       exists k :: k in t.perms && IsCopy(t.perms[k], s.perms, i, s.nextPool))
  }

  ghost predicate PoolAdded(s: Store, t: Store, pool: Pool) {
    t.pools == s.pools[s.nextPool := pool] && t.nextPool == s.nextPool + 1 && t.roles == s.roles
  }

  ghost predicate PoolsKept(s: Store, t: Store) {
    t.pools == s.pools && t.nextPool == s.nextPool && t.roles == s.roles
  }

  /** What a call that goes through leaves. */
  ghost predicate Effect(s: Store, op: Op, t: Store) {
    match op
    case OpCreate(parent, name) =>
      PoolAdded(s, t, Pool(Some(parent), name)) && RowsKept(s, t) && Inherited(s, t, parent) &&
      forall k :: k in t.perms && k !in s.perms ==> t.perms[k].from.Some?
    case OpGrant(pool, uid, role) =>
      PoolsKept(s, t) && RowsKept(s, t) && s.nextPerm !in s.perms && s.nextPerm in t.perms &&
      t.perms[s.nextPerm] == Perm(pool, uid, role, None) &&
      (forall k :: k in t.perms && k !in s.perms && k != s.nextPerm ==>
         t.perms[k] == Perm(t.perms[k].pool, uid, role, Some(s.nextPerm)) && IsAncestor(s.pools, pool, t.perms[k].pool)) &&
      (forall p :: IsAncestor(s.pools, pool, p) ==>
         exists k :: k in t.perms && t.perms[k] == Perm(p, uid, role, Some(s.nextPerm)))
    case OpRevoke(id) =>
      t == s.(perms := t.perms) &&
      (forall r :: r in t.perms <==> r in s.perms && r != id && s.perms[r].from != Some(id)) &&
      (forall r :: r in t.perms ==> t.perms[r] == s.perms[r])
    case OpUpdateRole(id, role) =>
      t == s.(perms := t.perms) && t.perms.Keys == s.perms.Keys &&
      forall r :: r in s.perms ==>
        t.perms[r] == if r == id || s.perms[r].from == Some(id) then s.perms[r].(role := role) else s.perms[r]
    case OpDeletePool(pool, _) =>
      t == s.(pools := t.pools, perms := t.perms) && t.pools == s.pools - {pool} &&
      (forall r :: r in t.perms <==> r in s.perms && s.perms[r].pool != pool) &&
      (forall r :: r in t.perms ==> t.perms[r] == s.perms[r])
    case OpUserRoot(smartRoot, user, admin) =>
      if exists p :: p in s.pools && s.pools[p] == Pool(Some(smartRoot), user) then t == s
      else
        PoolAdded(s, t, Pool(Some(smartRoot), user)) && RowsKept(s, t) && Inherited(s, t, smartRoot) &&
        (forall k :: k in t.perms && k !in s.perms && t.perms[k].from.None? ==>
           t.perms[k] == Perm(s.nextPool, user, admin, None)) &&
        exists k :: k in t.perms && t.perms[k] == Perm(s.nextPool, user, admin, None)
  }

  // ---------- call by call ----------

  lemma CopyOfRow(s: Store, parent: nat, name: string, i: nat) returns (k: nat)
    requires RowsOk(s) && i in s.perms && s.perms[i].pool == parent
    ensures k in Created(s, parent, name).perms && IsCopy(Created(s, parent, name).perms[k], s.perms, i, s.nextPool)
  {
    hide RowsOk, PermIds, Created, IsCopy;
    var j := RowListed(s, parent, i);
    k := s.nextPerm + j;
    InheritedAt(s, parent, name, j);
    CopyToIsCopy(s.perms, i, s.nextPool);
  }

  lemma RowListed(s: Store, parent: nat, i: nat) returns (j: nat)
    requires RowsOk(s) && i in s.perms && s.perms[i].pool == parent
    ensures j < |PermIds(s, parent)| && PermIds(s, parent)[j] == i
  {
    assert i in PermIds(s, parent);
    j :| 0 <= j < |PermIds(s, parent)| && PermIds(s, parent)[j] == i;
  }

  lemma InheritedAt(s: Store, parent: nat, name: string, j: nat)
    requires j < |PermIds(s, parent)| && PermIds(s, parent)[j] in s.perms
    ensures s.nextPerm + j in Created(s, parent, name).perms
    ensures Created(s, parent, name).perms[s.nextPerm + j] == CopyTo(s.perms, PermIds(s, parent)[j], s.nextPool)
  {
    hide PermIds, WithRows, CopyTo;
    RowAt(AddPool(s, Pool(Some(parent), name)), InheritedRows(s, parent), j);
  }

  lemma CopyToIsCopy(perms: map<nat, Perm>, i: nat, pool: nat)
    requires i in perms
    ensures IsCopy(CopyTo(perms, i, pool), perms, i, pool)
  {}

  lemma OldRowsStay(s: Store, parent: nat, name: string)
    requires RowsOk(s)
    ensures PoolAdded(s, Created(s, parent, name), Pool(Some(parent), name)) && RowsKept(s, Created(s, parent, name))
  {
    hide PermIds;
  }

  lemma CopiesInherited(s: Store, parent: nat, name: string)
    requires RowsOk(s)
    ensures Inherited(s, Created(s, parent, name), parent)
    ensures forall k :: k in Created(s, parent, name).perms && k !in s.perms ==>
              Created(s, parent, name).perms[k].from.Some?
  {
    hide RowsOk, Created, IsCopy, PermIds, CopyTo;
    var t := Created(s, parent, name);
    forall k | k in t.perms && k !in s.perms
      ensures t.perms[k].from.Some?
      ensures exists i :: i in s.perms && s.perms[i].pool == parent && IsCopy(t.perms[k], s.perms, i, s.nextPool)
    {
      NewRow(s, parent, name, k);
      var i := PermIds(s, parent)[k - s.nextPerm];
      CopyToIsCopy(s.perms, i, s.nextPool);
      CopyIsDerived(t.perms[k], s.perms, i, s.nextPool);
    }
    forall i | i in s.perms && s.perms[i].pool == parent
      ensures exists k :: k in t.perms && IsCopy(t.perms[k], s.perms, i, s.nextPool)
    {
      var k := CopyOfRow(s, parent, name, i);
    }
  }

  lemma CopyIsDerived(row: Perm, perms: map<nat, Perm>, i: nat, pool: nat)
    requires IsCopy(row, perms, i, pool)
    ensures i in perms && row.from.Some?
  {}

  lemma CreatedHasEffect(s: Store, parent: nat, name: string)
    requires RowsOk(s)
    ensures Effect(s, OpCreate(parent, name), Created(s, parent, name))
  {
    OldRowsStay(s, parent, name);
    CopiesInherited(s, parent, name);
    hide RowsOk, Created, PoolAdded, RowsKept, Inherited;
  }

  lemma GrantedHasEffect(s: Store, pool: nat, uid: string, role: nat)
    requires TreeOk(s) && RowsOk(s) && Flat(s)
    ensures Effect(s, OpGrant(pool, uid, role), Granted(s, pool, uid, role))
  {
    var t := Granted(s, pool, uid, role);
    OldRowsKept(s, pool, uid, role);
    GrantedPrimary(s, pool, uid, role);
    forall k | k in t.perms && k !in s.perms && k != s.nextPerm
      ensures t.perms[k] == Perm(t.perms[k].pool, uid, role, Some(s.nextPerm)) && IsAncestor(s.pools, pool, t.perms[k].pool)
    {
      GrantedRow(s, pool, uid, role, k);
    }
    forall p | IsAncestor(s.pools, pool, p)
      ensures exists k :: k in t.perms && t.perms[k] == Perm(p, uid, role, Some(s.nextPerm))
    {
      CopyOfNewGrant(s, pool, uid, role, p);
      var k :| k in t.perms && t.perms[k].from == Some(s.nextPerm) && t.perms[k].pool == p;
      assert k !in s.perms by {
        assert k in s.perms ==> FlatRow(s, k);
      }
    }
  }

  lemma CreateStep(s: Store, parent: nat, name: string)
    requires Inv(s)
    ensures Outcome(s, OpCreate(parent, name))
  {
    CreateOutcome(s, parent, name);
    if Possible(s, OpCreate(parent, name)) {
      CreatedHasEffect(s, parent, name);
    }
  }

  lemma GrantStepped(s: Store, pool: nat, uid: string, role: nat)
    requires Inv(s)
    ensures Outcome(s, OpGrant(pool, uid, role))
  {
    GrantOutcome(s, pool, uid, role);
    if Possible(s, OpGrant(pool, uid, role)) {
      GrantedHasEffect(s, pool, uid, role);
    }
  }

  lemma RevokeStepped(s: Store, id: nat)
    requires Inv(s)
    ensures Outcome(s, OpRevoke(id))
  {
    if id in s.perms {
      RevokedRows(s, id);
    }
  }

  lemma UpdateRoleStepped(s: Store, id: nat, role: nat)
    requires Inv(s)
    ensures Outcome(s, OpUpdateRole(id, role))
  {
    if Possible(s, OpUpdateRole(id, role)) {
      UpdateRoleOutcome(s, id, role);
      forall r | r in s.perms {
        CascadeIsFlat(s, id, r);
      }
    }
  }

  lemma DeleteStepped(s: Store, pool: nat, held: Holdings)
    requires Inv(s)
    ensures Outcome(s, OpDeletePool(pool, held))
  {
    DeleteOutcome(s, pool, held);
  }

  lemma UserRootStepped(s: Store, smartRoot: nat, user: string, admin: nat)
    requires Inv(s)
    ensures Outcome(s, OpUserRoot(smartRoot, user, admin))
  {
    UserRootOutcome(s, smartRoot, user, admin);
    if Possible(s, OpUserRoot(smartRoot, user, admin)) && !NameTaken(s, Some(smartRoot), user) {
      var c := Created(s, smartRoot, user);
      CreatedHasEffect(s, smartRoot, user);
      AdminAdded(s, c, smartRoot, user, admin);
    }
  }

  lemma AdminAdded(s: Store, c: Store, smartRoot: nat, user: string, admin: nat)
    requires Effect(s, OpCreate(smartRoot, user), c) && !NameTaken(s, Some(smartRoot), user)
    requires c.nextPerm !in c.perms
    ensures Effect(s, OpUserRoot(smartRoot, user, admin), Append(c, Perm(s.nextPool, user, admin, None)))
  {
    var t := Append(c, Perm(s.nextPool, user, admin, None));
    assert forall k :: k in c.perms ==> k in t.perms && t.perms[k] == c.perms[k];
    assert t.perms[c.nextPerm] == Perm(s.nextPool, user, admin, None);
    forall i | i in s.perms && s.perms[i].pool == smartRoot
      ensures exists k :: k in t.perms && IsCopy(t.perms[k], s.perms, i, s.nextPool)
    {
      var k :| k in c.perms && IsCopy(c.perms[k], s.perms, i, s.nextPool);
      assert IsCopy(t.perms[k], s.perms, i, s.nextPool);
    }
  }

  /** A call goes through exactly when it is possible, and then has its effect; otherwise nothing
      changes. */
  ghost predicate Outcome(s: Store, op: Op) {
    (Attempt(s, op).Ok? <==> Possible(s, op)) &&
    if Possible(s, op) then Effect(s, op, Step(s, op)) else Step(s, op) == s
  }

  /** In every table a run can reach, every call has this outcome. */
  lemma EveryCallHasEffect(s: Store, op: Op)
    requires Inv(s)
    ensures Outcome(s, op)
  {
    hide Outcome, Inv;
    match op
    case OpCreate(parent, name) => CreateStep(s, parent, name);
    case OpGrant(pool, uid, role) => GrantStepped(s, pool, uid, role);
    case OpRevoke(id) => RevokeStepped(s, id);
    case OpUpdateRole(id, role) => UpdateRoleStepped(s, id, role);
    case OpDeletePool(pool, held) => DeleteStepped(s, pool, held);
    case OpUserRoot(smartRoot, user, admin) => UserRootStepped(s, smartRoot, user, admin);
  }

  /** The same, as a promise the calls can give without asking for the invariant. */
  lemma CallHasEffect(s: Store, op: Op)
    ensures Inv(s) ==> Outcome(s, op)
  {
    if Inv(s) {
      EveryCallHasEffect(s, op);
    }
  }
}
