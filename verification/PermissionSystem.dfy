/** The pool and permission tables as the application updates them: one row at a time, inside
    transactions that are rolled back when a save raises. */
module PermissionSystem {
  import opened Util
  import opened PermissionEffects
  import opened Permissions

  class Database {
    var pools: map<nat, Pool>
    var perms: map<nat, Perm>
    var nextPool: nat
    var nextPerm: nat
    const roles: map<nat, set<string>>

    constructor (rootName: string, roles: map<nat, set<string>>)
      ensures State() == Fresh(rootName, roles)
    {
      pools, perms, nextPool, nextPerm := map[0 := Pool(None, rootName)], map[], 1, 0;
      this.roles := roles;
    }

    function State(): Store
      reads this
    {
      Store(pools, perms, nextPool, nextPerm, roles)
    }

    method Rollback(saved: Store)
      requires saved.roles == roles
      modifies this
      ensures State() == saved
    {
      pools, perms, nextPool, nextPerm := saved.pools, saved.perms, saved.nextPool, saved.nextPerm;
    }

    /** `save!` of a new permission; false stands for the exception. */
    method SaveNew(row: Perm) returns (ok: bool)
      modifies this
      ensures ok == Insert(old(State()), row).Ok?
      ensures State() == if ok then Insert(old(State()), row).value else old(State())
    {
      ok := row.uid != "" && row.role in roles && !Taken(perms, row);
      if ok {
        perms := perms[nextPerm := row];
        nextPerm := nextPerm + 1;
      }
    }

    method SaveEach(rows: seq<Perm>) returns (ok: bool)
      modifies this
      ensures ok == InsertAll(old(State()), rows).Ok?
      ensures ok ==> State() == InsertAll(old(State()), rows).value
      ensures State().roles == old(State().roles)
    {
      ghost var start := State();
      ok := true;
      var i := 0;
      while i < |rows|
        invariant 0 <= i <= |rows|
        invariant InsertAll(start, rows[..i]) == Ok(State())
      {
        assert rows[..i + 1][..i] == rows[..i];
        ok := SaveNew(rows[i]);
        if !ok {
          InsertAllStops(start, rows, i + 1);
          return;
        }
        i := i + 1;
      }
      assert rows[..i] == rows;
    }

    method CreateWithParent(parent: nat, name: string) returns (ok: bool)
      modifies this
      ensures ok == Permissions.CreateWithParent(old(State()), parent, name).Ok?
      ensures State() == Step(old(State()), OpCreate(parent, name))
      ensures Inv(old(State())) ==> (ok <==> Possible(old(State()), OpCreate(parent, name)))
      ensures Inv(old(State())) && ok ==> Effect(old(State()), OpCreate(parent, name), State())
    {
      CallHasEffect(State(), OpCreate(parent, name));
      var saved := State();
      if parent !in pools || name == "" || NameTaken(saved, None, name) || NameTaken(saved, Some(parent), name) {
        return false;
      }
      var id := nextPool;
      pools := pools[id := Pool(Some(parent), name)];
      nextPool := nextPool + 1;
      assert State() == AddPool(saved, Pool(Some(parent), name));
      ok := SaveEach(InheritedRows(saved, parent));
      if !ok {
        Rollback(saved);
      }
    }

    method SaveWithNewChildren(pool: nat, uid: string, role: nat) returns (ok: bool)
      modifies this
      ensures ok == Grant(old(State()), pool, uid, role).Ok?
      ensures State() == Step(old(State()), OpGrant(pool, uid, role))
      ensures Inv(old(State())) ==> (ok <==> Possible(old(State()), OpGrant(pool, uid, role)))
      ensures Inv(old(State())) && ok ==> Effect(old(State()), OpGrant(pool, uid, role), State())
    {
      CallHasEffect(State(), OpGrant(pool, uid, role));
      var saved := State();
      ok := SaveNew(Perm(pool, uid, role, None));
      if !ok {
        return;
      }
      if pool !in pools {
        Rollback(saved);
        return false;
      }
      ok := SaveEach(CopiesBelow(uid, role, saved.nextPerm, Descendants(saved, pool)));
      if !ok {
        Rollback(saved);
      }
    }

    /** `destroy` with dependent children: each child first, then the row itself. */
    method DestroyRow(id: nat)
      requires RowsBack(perms)
      requires forall i :: i in perms ==> i < nextPerm
      modifies this`perms
      ensures perms == Destroy(old(perms), id)
      decreases nextPerm - id
    {
      ghost var before := perms;
      var children := ChildIds(State(), id);
      var i := 0;
      while i < |children|
        invariant 0 <= i <= |children|
        invariant Remaining(before, perms, children[..i])
      {
        ghost var now := perms;
        assert children[i] in children;
        DestroyRow(children[i]);
        OneMoreDestroyed(before, now, children, i);
        i := i + 1;
      }
      assert children[..i] == children;
      AllBelowDestroyed(before, perms, nextPerm, id, children);
      perms := perms - {id};
    }

    method RevokeRow(id: nat) returns (ok: bool)
      requires RowsBack(perms)
      requires forall i :: i in perms ==> i < nextPerm
      modifies this
      ensures ok == Revoke(old(State()), id).Ok?
      ensures State() == Step(old(State()), OpRevoke(id))
      ensures Inv(old(State())) ==> (ok <==> Possible(old(State()), OpRevoke(id)))
      ensures Inv(old(State())) && ok ==> Effect(old(State()), OpRevoke(id), State())
    {
      CallHasEffect(State(), OpRevoke(id));
      ok := id in perms;
      if ok {
        DestroyRow(id);
      }
    }

    method SetRoleOf(id: nat, role: nat) returns (ok: bool)
      modifies this`perms
      ensures ok == SetRole(old(State()), id, role).Ok?
      ensures State() == if ok then SetRole(old(State()), id, role).value else old(State())
    {
      ok := id in perms && role in roles && !TakenByOther(perms, id, perms[id]);
      if ok {
        perms := perms[id := perms[id].(role := role)];
      }
    }

    method SetRoleOfEach(ids: seq<nat>, role: nat) returns (ok: bool)
      modifies this`perms
      ensures ok == SetRoles(old(State()), ids, role).Ok?
      ensures ok ==> State() == SetRoles(old(State()), ids, role).value
    {
      ghost var start := State();
      ok := true;
      var i := 0;
      while i < |ids|
        invariant 0 <= i <= |ids|
        invariant SetRoles(start, ids[..i], role) == Ok(State())
      {
        assert ids[..i + 1][..i] == ids[..i];
        ok := SetRoleOf(ids[i], role);
        if !ok {
          SetRolesStops(start, ids, role, i + 1);
          return;
        }
        i := i + 1;
      }
      assert ids[..i] == ids;
    }

    method UpdateRoleOf(id: nat, role: nat) returns (ok: bool)
      modifies this
      ensures ok == UpdateRole(old(State()), id, role).Ok?
      ensures State() == Step(old(State()), OpUpdateRole(id, role))
      ensures Inv(old(State())) ==> (ok <==> Possible(old(State()), OpUpdateRole(id, role)))
      ensures Inv(old(State())) && ok ==> Effect(old(State()), OpUpdateRole(id, role), State())
    {
      CallHasEffect(State(), OpUpdateRole(id, role));
      var saved := State();
      if id !in perms || perms[id].from.Some? {
        return false;
      }
      ok := SetRoleOf(id, role);
      if ok {
        ok := SetRoleOfEach(ChildIds(State(), id), role);
        if !ok {
          Rollback(saved);
        }
      }
    }

    method DestroyEach(ids: seq<nat>)
      requires RowsBack(perms)
      requires forall i :: i in perms ==> i < nextPerm
      modifies this`perms
      ensures perms == DestroyAll(old(perms), ids)
    {
      ghost var before := perms;
      var i := 0;
      while i < |ids|
        invariant 0 <= i <= |ids|
        invariant perms == DestroyAll(before, ids[..i])
        invariant RowsBack(perms)
        invariant forall i :: i in perms ==> i < nextPerm
      {
        assert ids[..i + 1][..i] == ids[..i];
        DestroyRow(ids[i]);
        i := i + 1;
      }
      assert ids[..i] == ids;
    }

    method DeleteLeafPool(pool: nat, held: Holdings) returns (ok: bool)
      requires RowsBack(perms)
      requires forall i :: i in perms ==> i < nextPerm
      modifies this
      ensures ok == DeletePool(old(State()), pool, held).Ok?
      ensures State() == Step(old(State()), OpDeletePool(pool, held))
      ensures Inv(old(State())) ==> (ok <==> Possible(old(State()), OpDeletePool(pool, held)))
      ensures Inv(old(State())) && ok ==> Effect(old(State()), OpDeletePool(pool, held), State())
    {
      CallHasEffect(State(), OpDeletePool(pool, held));
      if pool !in pools || held.isDefault || HasChildren(State(), pool) || held.hosts > 0 || held.storagePools > 0 {
        return false;
      }
      DestroyEach(PermIds(State(), pool));
      pools := pools - {pool};
      ok := true;
    }

    method GetOrCreateUserRoot(smartRoot: nat, user: string, admin: nat) returns (ok: bool)
      modifies this
      ensures ok == UserRoot(old(State()), smartRoot, user, admin).Ok?
      ensures State() == Step(old(State()), OpUserRoot(smartRoot, user, admin))
      ensures Inv(old(State())) ==> (ok <==> Possible(old(State()), OpUserRoot(smartRoot, user, admin)))
      ensures Inv(old(State())) && ok ==> Effect(old(State()), OpUserRoot(smartRoot, user, admin), State())
    {
      CallHasEffect(State(), OpUserRoot(smartRoot, user, admin));
      var saved := State();
      if NameTaken(saved, Some(smartRoot), user) {
        return true;
      }
      ok := CreateWithParent(smartRoot, user);
      if !ok {
        return;
      }
      ok := SaveNew(Perm(saved.nextPool, user, admin, None));
      if !ok {
        Rollback(saved);
      }
    }
  }

  /** Back-pointers lead to smaller ids. */
  ghost predicate RowsBack(perms: map<nat, Perm>) {
    forall i :: i in perms && perms[i].from.Some? ==> perms[i].from.value < i
  }

  /** Every table the calls can produce is of that kind, so destroying rows always ends. */
  lemma InvariantLeadsBack(s: Store)
    requires Inv(s)
    ensures RowsBack(s.perms) && forall i :: i in s.perms ==> i < s.nextPerm
  {}

  predicate BelowSome(perms: map<nat, Perm>, ids: seq<nat>, r: nat) {
    exists k :: 0 <= k < |ids| && (r == ids[k] || CopiedFrom(perms, ids[k], r))
  }

  /** What is left of the table once the rows `gone` and all that hangs below them are destroyed. */
  ghost predicate Remaining(before: map<nat, Perm>, now: map<nat, Perm>, gone: seq<nat>) {
    now.Keys <= before.Keys && (forall r :: r in now ==> now[r] == before[r]) &&
    forall r :: r in before ==> (r in now <==> !BelowSome(before, gone, r))
  }

  lemma {:induction false} InsertAllStops(s: Store, rows: seq<Perm>, n: nat)
    requires n <= |rows| && InsertAll(s, rows[..n]).Err?
    ensures InsertAll(s, rows).Err?
    decreases |rows|
  {
    if n == |rows| {
      assert rows[..n] == rows;
    } else {
      assert rows[..|rows| - 1][..n] == rows[..n];
      InsertAllStops(s, rows[..|rows| - 1], n);
    }
  }

  lemma {:induction false} SetRolesStops(s: Store, ids: seq<nat>, role: nat, n: nat)
    requires n <= |ids| && SetRoles(s, ids[..n], role).Err?
    ensures SetRoles(s, ids, role).Err?
    decreases |ids|
  {
    if n == |ids| {
      assert ids[..n] == ids;
    } else {
      assert ids[..|ids| - 1][..n] == ids[..n];
      SetRolesStops(s, ids[..|ids| - 1], role, n);
    }
  }

  /** A row above which nothing was destroyed keeps its whole chain of back-pointers. */
  lemma {:induction false} ChainKept(before: map<nat, Perm>, now: map<nat, Perm>, gone: seq<nat>, id: nat, r: nat)
    requires Remaining(before, now, gone) && r in now
    ensures CopiedFrom(now, id, r) <==> CopiedFrom(before, id, r)
    decreases r
  {
    if before[r].from.Some? && before[r].from.value < r && before[r].from.value != id {
      var q := before[r].from.value;
      if q in before {
        if q !in now {
          var k :| 0 <= k < |gone| && (q == gone[k] || CopiedFrom(before, gone[k], q));
          assert CopiedFrom(before, gone[k], r);
          assert false;
        }
        ChainKept(before, now, gone, id, q);
      }
    }
  }

  lemma CascadeAfterSiblings(before: map<nat, Perm>, now: map<nat, Perm>, ids: seq<nat>, i: nat, r: nat)
    requires i < |ids| && r in before && Remaining(before, now, ids[..i])
    ensures r in Destroy(now, ids[i]) <==> !BelowSome(before, ids[..i + 1], r)
  {
    assert ids[..i + 1] == ids[..i] + [ids[i]];
    assert ids[..i + 1][i] == ids[i];
    if r in now {
      ChainKept(before, now, ids[..i], ids[i], r);
    } else {
      var k :| 0 <= k < |ids[..i]| && (r == ids[..i][k] || CopiedFrom(before, ids[..i][k], r));
      assert ids[..i + 1][k] == ids[..i][k];
    }
  }

  lemma OneMoreDestroyed(before: map<nat, Perm>, now: map<nat, Perm>, ids: seq<nat>, i: nat)
    requires i < |ids| && Remaining(before, now, ids[..i])
    ensures Remaining(before, Destroy(now, ids[i]), ids[..i + 1])
  {
    forall r | r in before
      ensures r in Destroy(now, ids[i]) <==> !BelowSome(before, ids[..i + 1], r)
    {
      CascadeAfterSiblings(before, now, ids, i, r);
    }
  }

  /** What hangs below a row is its children and what hangs below them. */
  lemma {:induction false} CascadeThroughChildren(perms: map<nat, Perm>, n: nat, id: nat, children: seq<nat>, r: nat)
    requires RowsBack(perms) && forall i :: i in perms ==> i < n
    requires forall c :: c in children <==> c in perms && perms[c].from == Some(id)
    requires r in perms
    ensures CopiedFrom(perms, id, r) <==> BelowSome(perms, children, r)
    decreases r
  {
    if perms[r].from == Some(id) {
      assert r in children;
    } else if perms[r].from.Some? && perms[r].from.value in perms {
      var q := perms[r].from.value;
      CascadeThroughChildren(perms, n, id, children, q);
      if BelowSome(perms, children, q) {
        var k :| 0 <= k < |children| && (q == children[k] || CopiedFrom(perms, children[k], q));
        assert CopiedFrom(perms, children[k], r);
      }
      if BelowSome(perms, children, r) {
        var k :| 0 <= k < |children| && (r == children[k] || CopiedFrom(perms, children[k], r));
        assert children[k] in children;
        assert q == children[k] || CopiedFrom(perms, children[k], q);
      }
    } else {
      forall k | 0 <= k < |children|
        ensures r != children[k] && !CopiedFrom(perms, children[k], r)
      {
        assert children[k] in children;
      }
    }
  }

  lemma AllBelowDestroyed(before: map<nat, Perm>, now: map<nat, Perm>, n: nat, id: nat, children: seq<nat>)
    requires RowsBack(before) && forall i :: i in before ==> i < n
    requires forall c :: c in children <==> c in before && before[c].from == Some(id)
    requires Remaining(before, now, children)
    ensures now - {id} == Destroy(before, id)
  {
    forall r | r in before
      ensures CopiedFrom(before, id, r) <==> BelowSome(before, children, r)
    {
      CascadeThroughChildren(before, n, id, children, r);
    }
  }
}
