/** What revoking, changing a role, deleting a pool and creating a user directory keep, and what
    holds of the tables after every run of calls. */
module PermissionRuns {
  import opened Util
  import opened Permissions

  // ---------- revoking ----------

  /** Under the invariant the cascade is exactly one level deep. */
  lemma CascadeIsFlat(s: Store, id: nat, r: nat)
    requires Inv(s) && id in s.perms
    ensures CopiedFrom(s.perms, id, r) <==> r in s.perms && s.perms[r].from == Some(id)
    decreases r
  {}

  lemma RevokedRows(s: Store, id: nat)
    requires Inv(s) && id in s.perms
    ensures Destroy(s.perms, id) == map r | r in s.perms && r != id && s.perms[r].from != Some(id) :: s.perms[r]
  {
    forall r {
      CascadeIsFlat(s, id, r);
    }
  }

  /** Completeness survives a change that adds no ancestor and no primary row, and keeps every
      copy of the primary rows it keeps. */
  lemma CompleteKept(s: Store, t: Store)
    requires Complete(s)
    requires forall g :: g in t.perms && t.perms[g].from.None? ==>
               g in s.perms && s.perms[g].from.None? && s.perms[g].pool == t.perms[g].pool
    requires forall i :: i in s.perms && s.perms[i].from.Some? && s.perms[i].pool in t.pools ==>
               (var g := s.perms[i].from.value; g in t.perms && t.perms[g].from.None?) ==>
               i in t.perms && t.perms[i].pool == s.perms[i].pool && t.perms[i].from == s.perms[i].from
    requires forall a, p :: IsAncestor(t.pools, a, p) ==> p in t.pools && IsAncestor(s.pools, a, p)
    ensures Complete(t)
  {
    forall g, p | g in t.perms && t.perms[g].from.None? && IsAncestor(t.pools, t.perms[g].pool, p)
      ensures HasCopy(t.perms, g, p)
    {
      assert HasCopy(s.perms, g, p);
      var i :| i in s.perms && s.perms[i].from == Some(g) && s.perms[i].pool == p;
      assert i in t.perms;
    }
  }

  lemma RevokeKeepsInv(s: Store, id: nat)
    requires Inv(s) && id in s.perms && s.perms[id].from.None?
    ensures Inv(Revoke(s, id).value)
  {
    var t := Revoke(s, id).value;
    RevokedRows(s, id);
    CompleteKept(s, t);
  }

  /** Destroying a row keeps the table consistent exactly when the row is primary: the service
      call does not check it, and on an inherited row it leaves a hole below the grant. */
  lemma RevokeKeepsInvIffPrimary(s: Store, id: nat)
    requires Inv(s) && id in s.perms
    ensures Inv(Revoke(s, id).value) <==> s.perms[id].from.None?
  {
    if s.perms[id].from.None? {
      RevokeKeepsInv(s, id);
    } else {
      var t := Revoke(s, id).value;
      var g, p := s.perms[id].from.value, s.perms[id].pool;
      RevokedRows(s, id);
      assert forall i :: i in s.perms && s.perms[i].from == Some(g) && s.perms[i].pool == p ==>
          SameKey(s.perms[i], s.perms[id]);
      assert !HasCopy(t.perms, g, p);
    }
  }

  // ---------- changing a role ----------

  function WithRole(perms: map<nat, Perm>, ids: seq<nat>, role: nat): map<nat, Perm> {
    map r | r in perms :: if r in ids then perms[r].(role := role) else perms[r]
  }

  /** Changing roles moves no row to another key, so no save in the loop is rejected. */
  lemma {:induction false} SetRolesSucceeds(s: Store, ids: seq<nat>, role: nat)
    requires Unique(s.perms) && role in s.roles && forall i :: i in ids ==> i in s.perms
    ensures SetRoles(s, ids, role) == Ok(s.(perms := WithRole(s.perms, ids, role)))
  {
    if ids == [] {
      assert WithRole(s.perms, ids, role) == s.perms;
    } else {
      var n := |ids| - 1;
      assert ids == ids[..n] + [ids[n]];
      SetRolesSucceeds(s, ids[..n], role);
      var before := WithRole(s.perms, ids[..n], role);
      assert ids[n] in ids;
      assert forall i :: i in before ==> SameKey(before[i], s.perms[i]);
      assert !TakenByOther(before, ids[n], before[ids[n]]);
      assert before[ids[n] := before[ids[n]].(role := role)] == WithRole(s.perms, ids, role);
    }
  }

  ghost predicate RoleSpread(perms: map<nat, Perm>, id: nat, role: nat, after: map<nat, Perm>) {
    after.Keys == perms.Keys &&
    forall r :: r in perms ==>
      after[r] == if r == id || CopiedFrom(perms, id, r) then perms[r].(role := role) else perms[r]
  }

  lemma ChildrenAreTheCascade(s: Store, id: nat, role: nat, r: nat)
    requires Inv(s) && id in s.perms && s.perms[id].from.None? && r in s.perms
    ensures r in ChildIds(s.(perms := s.perms[id := s.perms[id].(role := role)]), id) <==> CopiedFrom(s.perms, id, r)
  {}

  lemma SetRoleOutcome(s: Store, id: nat, role: nat)
    requires Unique(s.perms) && id in s.perms && role in s.roles
    ensures SetRole(s, id, role) == Ok(s.(perms := s.perms[id := s.perms[id].(role := role)]))
    ensures Unique(s.perms[id := s.perms[id].(role := role)])
  {}

  /** `update_role` succeeds on every primary row, and reaches the whole cascade of copies even
      though it looks one level down only. */
  lemma UpdateRoleOutcome(s: Store, id: nat, role: nat)
    requires Inv(s) && id in s.perms && s.perms[id].from.None? && role in s.roles
    ensures UpdateRole(s, id, role).Ok?
    ensures var t := UpdateRole(s, id, role).value;
            t == s.(perms := t.perms) && RoleSpread(s.perms, id, role, t.perms)
  {
    SetRoleOutcome(s, id, role);
    var s1 := SetRole(s, id, role).value;
    SetRolesSucceeds(s1, ChildIds(s1, id), role);
    forall r | r in s.perms {
      ChildrenAreTheCascade(s, id, role, r);
    }
  }

  lemma UpdateRoleKeepsInv(s: Store, id: nat, role: nat)
    requires Inv(s) && id in s.perms && s.perms[id].from.None? && role in s.roles
    ensures UpdateRole(s, id, role).Ok? && Inv(UpdateRole(s, id, role).value)
  {
    UpdateRoleOutcome(s, id, role);
    var t := UpdateRole(s, id, role).value;
    forall r | r in s.perms
      ensures CopiedFrom(s.perms, id, r) <==> s.perms[r].from == Some(id)
    {
      CascadeIsFlat(s, id, r);
    }
    assert forall i :: i in t.perms ==> SameKey(t.perms[i], s.perms[i]);
    assert Flat(t);
    assert RowsOk(t);
    CompleteKept(s, t) by {
      forall a, p | IsAncestor(t.pools, a, p)
        ensures p in t.pools
      {}
    }
  }

  // ---------- deleting a leaf ----------

  /** No permission of a leaf has copies, so destroying them removes just the rows on the leaf. */
  lemma {:induction false} LeafRowsDestroyed(s: Store, pool: nat, ids: seq<nat>)
    requires Inv(s) && !HasChildren(s, pool)
    requires forall i :: i in ids ==> i in s.perms && s.perms[i].pool == pool
    ensures DestroyAll(s.perms, ids) == map r | r in s.perms && r !in ids :: s.perms[r]
  {
    if ids != [] {
      var n := |ids| - 1;
      LeafRowsDestroyed(s, pool, ids[..n]);
      var before := DestroyAll(s.perms, ids[..n]);
      assert ids[n] in ids && ids == ids[..n] + [ids[n]];
      forall r | r in before
        ensures !CopiedFrom(before, ids[n], r)
      {
        if s.perms[r].from.Some? {
          var q := s.perms[r].from.value;
          LeafHasNoDescendant(s, pool, s.perms[r].pool);
          assert q in s.perms && s.perms[q].from.None?;
        }
      }
    }
  }

  function RowsElsewhere(perms: map<nat, Perm>, pool: nat): map<nat, Perm> {
    map r | r in perms && perms[r].pool != pool :: perms[r]
  }

  /** A deletion fails only for a missing pool or one that is the default, has children, hosts or
      storage; otherwise just the rows on the pool go with it. */
  lemma DeleteOutcome(s: Store, pool: nat, held: Holdings)
    requires Inv(s)
    ensures DeletePool(s, pool, held).Ok? <==>
            pool in s.pools && !HasChildren(s, pool) && held == Holdings(false, 0, 0)
    ensures DeletePool(s, pool, held).Ok? ==>
              DeletePool(s, pool, held).value ==
              s.(pools := s.pools - {pool}, perms := RowsElsewhere(s.perms, pool))
  {
    hide Inv, DestroyAll, HasChildren;
    if DeletePool(s, pool, held).Ok? {
      RowsOnLeafDestroyed(s, pool);
    }
  }

  lemma RowsOnLeafDestroyed(s: Store, pool: nat)
    requires Inv(s) && !HasChildren(s, pool)
    ensures DestroyAll(s.perms, PermIds(s, pool)) == RowsElsewhere(s.perms, pool)
  {
    var ids := PermIds(s, pool);
    LeafRowsDestroyed(s, pool, ids);
    assert forall r :: r in s.perms ==> (r in ids <==> s.perms[r].pool == pool);
  }

  lemma DeleteKeepsInv(s: Store, pool: nat, held: Holdings)
    requires Inv(s) && DeletePool(s, pool, held).Ok?
    ensures Inv(DeletePool(s, pool, held).value)
  {
    DeleteOutcome(s, pool, held);
    var t := DeletePool(s, pool, held).value;
    forall a, p | p in t.pools
      ensures IsAncestor(t.pools, a, p) == IsAncestor(s.pools, a, p)
    {
      AncestorsKeptByDelete(s, pool, a, p);
    }
    forall p {
      LeafHasNoDescendant(s, pool, p);
    }
    assert TreeOk(t);
    assert RowsOk(t);
    assert Flat(t);
    CompleteKept(s, t);
  }

  // ---------- the user's own directory ----------

  /** A primary row on a childless pool needs no copies. */
  lemma LeafGrantKeepsInv(s: Store, row: Perm)
    requires Inv(s) && row.from.None? && row.pool in s.pools && !HasChildren(s, row.pool)
    requires Insert(s, row).Ok?
    ensures Inv(Insert(s, row).value)
  {
    var t := Insert(s, row).value;
    forall g, p | g in t.perms && t.perms[g].from.None? && IsAncestor(t.pools, t.perms[g].pool, p)
      ensures HasCopy(t.perms, g, p)
    {
      if g == s.nextPerm {
        LeafHasNoDescendant(s, row.pool, p);
      } else {
        assert HasCopy(s.perms, g, p);
        CopyKept(s.perms, t.perms, g, p);
      }
    }
    assert Unique(t.perms);
    assert Flat(t);
  }

  /** A new user directory fails only where creating the pool fails or the administrator role is
      missing; the permission itself is never rejected. */
  lemma UserRootOutcome(s: Store, smartRoot: nat, user: string, admin: nat)
    requires Inv(s)
    ensures UserRoot(s, smartRoot, user, admin) ==
            if NameTaken(s, Some(smartRoot), user) then Ok(s)
            else if smartRoot !in s.pools then Err(RecordNotFound)
            else if user == "" || NameTaken(s, None, user) || admin !in s.roles then Err(RecordInvalid)
            else Ok(Append(Created(s, smartRoot, user), Perm(s.nextPool, user, admin, None)))
  {
    CreateOutcome(s, smartRoot, user);
    if smartRoot in s.pools {
      var t := Created(s, smartRoot, user);
      forall i | i in t.perms
        ensures !SameKey(t.perms[i], Perm(s.nextPool, user, admin, None))
      {
        if i !in s.perms {
          NewRow(s, smartRoot, user, i);
        }
      }
    }
  }

  lemma UserRootKeepsInv(s: Store, smartRoot: nat, user: string, admin: nat)
    requires Inv(s)
    ensures UserRoot(s, smartRoot, user, admin).Ok? ==> Inv(UserRoot(s, smartRoot, user, admin).value)
  {
    if UserRoot(s, smartRoot, user, admin).Ok? && !NameTaken(s, Some(smartRoot), user) {
      CreateOutcome(s, smartRoot, user);
      CreateKeepsInv(s, smartRoot, user);
      LeafGrantKeepsInv(Created(s, smartRoot, user), Perm(s.nextPool, user, admin, None));
    }
  }

  // ---------- main results ----------

  lemma StepKeepsInv(s: Store, op: Op)
    requires Inv(s) && Allowed(s, op)
    ensures Inv(Step(s, op))
  {
    if Attempt(s, op).Ok? {
      match op
      case OpCreate(parent, name) =>
        CreateOutcome(s, parent, name);
        CreateKeepsInv(s, parent, name);
      case OpGrant(pool, uid, role) =>
        GrantOutcome(s, pool, uid, role);
        GrantKeepsInv(s, pool, uid, role);
      case OpRevoke(id) =>
        RevokeKeepsInv(s, id);
      case OpUpdateRole(id, role) =>
        UpdateRoleKeepsInv(s, id, role);
      case OpDeletePool(pool, held) =>
        DeleteKeepsInv(s, pool, held);
      case OpUserRoot(smartRoot, user, admin) =>
        UserRootKeepsInv(s, smartRoot, user, admin);
    }
  }

  lemma {:induction false} RunKeepsInv(s: Store, ops: seq<Op>)
    requires Inv(s) && AllAllowed(s, ops)
    ensures Inv(Run(s, ops))
  {
    if ops != [] {
      RunKeepsInv(s, ops[..|ops| - 1]);
      StepKeepsInv(Run(s, ops[..|ops| - 1]), ops[|ops| - 1]);
    }
  }

  /** `has_privilege`: looks only at the rows on the pool itself. */
  predicate HasPrivilege(s: Store, pool: nat, uid: string, priv: string) {
    exists i :: i in s.perms && s.perms[i].pool == pool && s.perms[i].uid == uid &&
      s.perms[i].role in s.roles && priv in s.roles[s.perms[i].role]
  }

  /** The reference definition: walk up the tree looking for a grant. */
  ghost predicate GrantedAtOrAbove(s: Store, pool: nat, uid: string, priv: string) {
    exists g :: g in s.perms && s.perms[g].from.None? && s.perms[g].uid == uid &&
      AtOrAbove(s.pools, s.perms[g].pool, pool) &&
      s.perms[g].role in s.roles && priv in s.roles[s.perms[g].role]
  }

  lemma PrivilegeIffGranted(s: Store, pool: nat, uid: string, priv: string)
    requires Inv(s)
    ensures HasPrivilege(s, pool, uid, priv) <==> GrantedAtOrAbove(s, pool, uid, priv)
  {
    if HasPrivilege(s, pool, uid, priv) {
      var i :| i in s.perms && s.perms[i].pool == pool && s.perms[i].uid == uid &&
        s.perms[i].role in s.roles && priv in s.roles[s.perms[i].role];
      var g := Origin(s.perms, i);
      assert g in s.perms && AtOrAbove(s.pools, s.perms[g].pool, pool);
    }
    if GrantedAtOrAbove(s, pool, uid, priv) {
      var g :| g in s.perms && s.perms[g].from.None? && s.perms[g].uid == uid &&
        AtOrAbove(s.pools, s.perms[g].pool, pool) &&
        s.perms[g].role in s.roles && priv in s.roles[s.perms[g].role];
      if s.perms[g].pool != pool {
        assert HasCopy(s.perms, g, pool);
        var i :| i in s.perms && s.perms[i].from == Some(g) && s.perms[i].pool == pool;
      }
    }
  }

  /** One derived row per primary grant and strict descendant, with its user and role, and no other. */
  lemma ExactlyOneCopy(s: Store, g: nat, p: nat)
    requires Inv(s) && g in s.perms && s.perms[g].from.None?
    ensures |set i | i in s.perms && s.perms[i].from == Some(g) && s.perms[i].pool == p| ==
            if IsAncestor(s.pools, s.perms[g].pool, p) then 1 else 0
    ensures forall i :: i in s.perms && s.perms[i].from == Some(g) ==>
              s.perms[i].uid == s.perms[g].uid && s.perms[i].role == s.perms[g].role
  {
    var copies := set i | i in s.perms && s.perms[i].from == Some(g) && s.perms[i].pool == p;
    if IsAncestor(s.pools, s.perms[g].pool, p) {
      assert HasCopy(s.perms, g, p);
      var i :| i in s.perms && s.perms[i].from == Some(g) && s.perms[i].pool == p;
      forall j | j in copies
        ensures j == i
      {
        assert SameKey(s.perms[i], s.perms[j]);
      }
      assert copies == {i};
    } else {
      assert copies == {};
    }
  }

  /** The user of a new directory has every privilege of the administrator role on it. */
  lemma UserRootGrantsAdmin(s: Store, smartRoot: nat, user: string, admin: nat, priv: string)
    requires Inv(s) && !NameTaken(s, Some(smartRoot), user) && UserRoot(s, smartRoot, user, admin).Ok?
    requires admin in s.roles && priv in s.roles[admin]
    ensures var t := UserRoot(s, smartRoot, user, admin).value;
            NameTaken(t, Some(smartRoot), user) && HasPrivilege(t, s.nextPool, user, priv)
  {
    UserRootOutcome(s, smartRoot, user, admin);
    var t := UserRoot(s, smartRoot, user, admin).value;
    assert t.pools[s.nextPool] == Pool(Some(smartRoot), user);
    assert t.perms[Created(s, smartRoot, user).nextPerm] == Perm(s.nextPool, user, admin, None);
  }

  /** From a fresh database, after any calls that revoke only primary rows, the table answers
      every privilege question as the walk up the tree does. */
  lemma CacheAgreesAfterEveryRun(rootName: string, roles: map<nat, set<string>>, ops: seq<Op>,
                                 pool: nat, uid: string, priv: string)
    requires AllAllowed(Fresh(rootName, roles), ops)
    ensures var s := Run(Fresh(rootName, roles), ops);
            HasPrivilege(s, pool, uid, priv) <==> GrantedAtOrAbove(s, pool, uid, priv)
  {
    var s := Fresh(rootName, roles);
    RunKeepsInv(s, ops);
    PrivilegeIffGranted(Run(s, ops), pool, uid, priv);
  }
}
