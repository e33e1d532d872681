/** The pool tree and the denormalised permission table.

    A primary permission on a pool is copied, as derived rows pointing back at it, to every
    pool below.  The specification functions describe each service call as one transaction on
    a `Store`; `Inv` is what every run of them keeps; `PermissionSystem.Database` performs the same
    calls row by row. */
module Permissions {
  import opened Util

  datatype Pool = Pool(parent: Option<nat>, name: string)

  /** `from` is the inherited_from_id column: the primary row a derived row was copied from. */
  datatype Perm = Perm(pool: nat, uid: string, role: nat, from: Option<nat>)

  datatype Store = Store(
    pools: map<nat, Pool>, perms: map<nat, Perm>,
    nextPool: nat, nextPerm: nat,
    roles: map<nat, set<string>>)

  datatype Error =
    | RecordNotFound | RecordInvalid | InheritedPermission
    | DefaultPool | PoolHasChildren | PoolHasHosts | PoolHasStorage

  /** What else a deletion looks at: whether the pool is the default one, its hosts and its storage. */
  datatype Holdings = Holdings(isDefault: bool, hosts: nat, storagePools: nat)

  // ---------- the tree ----------

  /** Pool `a` lies strictly above pool `p`.  Row ids come from a sequence and a parent is
      saved before its children, so walking up always decreases the id. */
  predicate IsAncestor(pools: map<nat, Pool>, a: nat, p: nat)
    decreases p
  {
    p in pools && pools[p].parent.Some? &&
    var q := pools[p].parent.value;
    q < p && (a == q || IsAncestor(pools, a, q))
  }

  predicate AtOrAbove(pools: map<nat, Pool>, a: nat, p: nat) {
    a == p || IsAncestor(pools, a, p)
  }

  ghost predicate TreeOk(s: Store) {
    forall p :: p in s.pools ==>
      p < s.nextPool &&
      (s.pools[p].parent.Some? ==> s.pools[p].parent.value < p && s.pools[p].parent.value in s.pools)
  }

  /** `pool.all_children`, in id order. */
  function Descendants(s: Store, pool: nat): seq<nat> {
    var pools := s.pools;
    Select(s.nextPool, (p: nat) => IsAncestor(pools, pool, p))
  }

  predicate HasChildren(s: Store, pool: nat) {
    exists p :: p in s.pools && s.pools[p].parent == Some(pool)
  }

  predicate NameTaken(s: Store, parent: Option<nat>, name: string) {
    exists p :: p in s.pools && s.pools[p] == Pool(parent, name)
  }

  // ---------- rows ----------

  /** The scope of the uniqueness validation on uid. */
  predicate SameKey(a: Perm, b: Perm) {
    a.pool == b.pool && a.uid == b.uid && a.from == b.from
  }

  predicate Taken(perms: map<nat, Perm>, row: Perm) {
    exists i :: i in perms && SameKey(perms[i], row)
  }

  predicate TakenByOther(perms: map<nat, Perm>, id: nat, row: Perm) {
    exists i :: i in perms && i != id && SameKey(perms[i], row)
  }

  function Append(s: Store, row: Perm): Store {
    s.(perms := s.perms[s.nextPerm := row], nextPerm := s.nextPerm + 1)
  }

  /** `save!` on a new row. */
  function Insert(s: Store, row: Perm): Result<Store, Error> {
    if row.uid == "" || row.role !in s.roles || Taken(s.perms, row) then Err(RecordInvalid)
    else Ok(Append(s, row))
  }

  function InsertAll(s: Store, rows: seq<Perm>): Result<Store, Error> {
    if rows == [] then Ok(s)
    else
      var s1 :- InsertAll(s, rows[..|rows| - 1]);
      Insert(s1, rows[|rows| - 1])
  }

  /** `pool.permissions`, ordered by id. */
  function PermIds(s: Store, pool: nat): seq<nat> {
    var perms := s.perms;
    Select(s.nextPerm, (i: nat) => i in perms && perms[i].pool == pool)
  }

  /** `permission.child_permissions`. */
  function ChildIds(s: Store, id: nat): seq<nat> {
    var perms := s.perms;
    Select(s.nextPerm, (i: nat) => i in perms && perms[i].from == Some(id))
  }

  // ---------- the transactions ----------

  /** The back-pointer a copy of row `i` gets: `i` itself when primary, else what `i` points at. */
  function Origin(perms: map<nat, Perm>, i: nat): nat
    requires i in perms
  {
    if perms[i].from.None? then i else perms[i].from.value
  }

  function CopyTo(perms: map<nat, Perm>, i: nat, pool: nat): Perm
    requires i in perms
  {
    Perm(pool, perms[i].uid, perms[i].role, Some(Origin(perms, i)))
  }

  function CopiesTo(perms: map<nat, Perm>, ids: seq<nat>, pool: nat): (rows: seq<Perm>)
    requires forall i :: i in ids ==> i in perms
    ensures |rows| == |ids| && forall k :: 0 <= k < |ids| ==> rows[k] == CopyTo(perms, ids[k], pool)
  {
    if ids == [] then []
    else
      assert ids[|ids| - 1] in ids;
      CopiesTo(perms, ids[..|ids| - 1], pool) + [CopyTo(perms, ids[|ids| - 1], pool)]
  }

  /** What a new pool below `parent` receives: a copy of every row of the parent. */
  function InheritedRows(s: Store, parent: nat): (rows: seq<Perm>)
    ensures |rows| == |PermIds(s, parent)|
  {
    CopiesTo(s.perms, PermIds(s, parent), s.nextPool)
  }

  function AddPool(s: Store, pool: Pool): Store {
    s.(pools := s.pools[s.nextPool := pool], nextPool := s.nextPool + 1)
  }

  /** Saved twice: first as a root, then under the parent; both saves validate the name. */
  function CreateWithParent(s: Store, parent: nat, name: string): Result<Store, Error> {
    if parent !in s.pools then Err(RecordNotFound)
    else if name == "" || NameTaken(s, None, name) || NameTaken(s, Some(parent), name) then Err(RecordInvalid)
    else InsertAll(AddPool(s, Pool(Some(parent), name)), InheritedRows(s, parent))
  }

  function CopiesBelow(uid: string, role: nat, from: nat, pools: seq<nat>): (rows: seq<Perm>)
    ensures |rows| == |pools| && forall k :: 0 <= k < |pools| ==> rows[k] == Perm(pools[k], uid, role, Some(from))
  {
    if pools == [] then []
    else CopiesBelow(uid, role, from, pools[..|pools| - 1]) + [Perm(pools[|pools| - 1], uid, role, Some(from))]
  }

  /** `save_with_new_children` on a new primary row. */
  function Grant(s: Store, pool: nat, uid: string, role: nat): Result<Store, Error> {
    var s1 :- Insert(s, Perm(pool, uid, role, None));
    if pool !in s.pools then Err(RecordNotFound)
    else InsertAll(s1, CopiesBelow(uid, role, s.nextPerm, Descendants(s, pool)))
  }

  /** Row `r` reaches row `id` through back-pointers: the cascade of `:dependent => :destroy`. */
  predicate CopiedFrom(perms: map<nat, Perm>, id: nat, r: nat)
    decreases r
  {
    r in perms && perms[r].from.Some? &&
    var q := perms[r].from.value;
    q < r && (id == q || CopiedFrom(perms, id, q))
  }

  function Destroy(perms: map<nat, Perm>, id: nat): map<nat, Perm> {
    map r | r in perms && r != id && !CopiedFrom(perms, id, r) :: perms[r]
  }

  function DestroyAll(perms: map<nat, Perm>, ids: seq<nat>): map<nat, Perm> {
    if ids == [] then perms else Destroy(DestroyAll(perms, ids[..|ids| - 1]), ids[|ids| - 1])
  }

  function Revoke(s: Store, id: nat): Result<Store, Error> {
    if id !in s.perms then Err(RecordNotFound) else Ok(s.(perms := Destroy(s.perms, id)))
  }

  /** `save!` of an existing row after assigning its role. */
  function SetRole(s: Store, id: nat, role: nat): Result<Store, Error> {
    if id !in s.perms || role !in s.roles || TakenByOther(s.perms, id, s.perms[id]) then Err(RecordInvalid)
    else Ok(s.(perms := s.perms[id := s.perms[id].(role := role)]))
  }

  function SetRoles(s: Store, ids: seq<nat>, role: nat): Result<Store, Error> {
    if ids == [] then Ok(s)
    else
      var s1 :- SetRoles(s, ids[..|ids| - 1], role);
      SetRole(s1, ids[|ids| - 1], role)
  }

  /** Sets the role of a primary row and of the rows pointing straight at it. */
  function UpdateRole(s: Store, id: nat, role: nat): Result<Store, Error> {
    if id !in s.perms then Err(RecordNotFound)
    else if s.perms[id].from.Some? then Err(InheritedPermission)
    else
      var s1 :- SetRole(s, id, role);
      SetRoles(s1, ChildIds(s1, id), role)
  }

  /** Destroys an empty pool, and with it the permissions on it. */
  function DeletePool(s: Store, pool: nat, held: Holdings): Result<Store, Error> {
    if pool !in s.pools then Err(RecordNotFound)
    else if held.isDefault then Err(DefaultPool)
    else if HasChildren(s, pool) then Err(PoolHasChildren)
    else if held.hosts > 0 then Err(PoolHasHosts)
    else if held.storagePools > 0 then Err(PoolHasStorage)
    else Ok(s.(pools := s.pools - {pool}, perms := DestroyAll(s.perms, PermIds(s, pool))))
  }

  /** A user's own directory below the smart root, with the user as its administrator; the
      permission is saved alone because the new pool has no descendants. */
  function UserRoot(s: Store, smartRoot: nat, user: string, admin: nat): Result<Store, Error> {
    if NameTaken(s, Some(smartRoot), user) then Ok(s)
    else
      var s1 :- CreateWithParent(s, smartRoot, user);
      Insert(s1, Perm(s.nextPool, user, admin, None))
  }

  datatype Op =
    | OpCreate(parent: nat, name: string)
    | OpGrant(pool: nat, uid: string, role: nat)
    | OpRevoke(id: nat)
    | OpUpdateRole(id: nat, role: nat)
    | OpDeletePool(pool: nat, held: Holdings)
    | OpUserRoot(smartRoot: nat, user: string, admin: nat)

  function Attempt(s: Store, op: Op): Result<Store, Error> {
    match op
    case OpCreate(parent, name) => CreateWithParent(s, parent, name)
    case OpGrant(pool, uid, role) => Grant(s, pool, uid, role)
    case OpRevoke(id) => Revoke(s, id)
    case OpUpdateRole(id, role) => UpdateRole(s, id, role)
    case OpDeletePool(pool, held) => DeletePool(s, pool, held)
    case OpUserRoot(smartRoot, user, admin) => UserRoot(s, smartRoot, user, admin)
  }

  /** A transaction that raises leaves the tables as they were. */
  function Step(s: Store, op: Op): Store {
    match Attempt(s, op)
    case Ok(t) => t
    case Err(_) => s
  }

  function Run(s: Store, ops: seq<Op>): Store {
    if ops == [] then s else Step(Run(s, ops[..|ops| - 1]), ops[|ops| - 1])
  }

  /** One root directory and no permission. */
  function Fresh(rootName: string, roles: map<nat, set<string>>): Store {
    Store(map[0 := Pool(None, rootName)], map[], 1, 0, roles)
  }

  /** Destroying an inherited row directly is the one call that may break the table. */
  predicate Allowed(s: Store, op: Op) {
    op.OpRevoke? && op.id in s.perms ==> s.perms[op.id].from.None?
  }

  predicate AllAllowed(s: Store, ops: seq<Op>) {
    ops == [] || (AllAllowed(s, ops[..|ops| - 1]) && Allowed(Run(s, ops[..|ops| - 1]), ops[|ops| - 1]))
  }

  // ---------- what is kept ----------

  ghost predicate HasCopy(perms: map<nat, Perm>, g: nat, p: nat) {
    exists i :: i in perms && perms[i].from == Some(g) && perms[i].pool == p
  }

  ghost predicate RowsOk(s: Store) {
    forall i :: i in s.perms ==>
      i < s.nextPerm && s.perms[i].pool in s.pools && s.perms[i].uid != "" && s.perms[i].role in s.roles
  }

  /** A derived row points straight at a primary row of a pool above, with its user and role. */
  ghost predicate FlatRow(s: Store, i: nat)
    requires i in s.perms
  {
    s.perms[i].from.Some? ==>
      var g := s.perms[i].from.value;
      g < i && g in s.perms && s.perms[g].from.None? &&
      s.perms[g].uid == s.perms[i].uid && s.perms[g].role == s.perms[i].role &&
      IsAncestor(s.pools, s.perms[g].pool, s.perms[i].pool)
  }

  ghost predicate Flat(s: Store) {
    forall i :: i in s.perms ==> FlatRow(s, i)
  }

  ghost predicate Unique(perms: map<nat, Perm>) {
    forall i, j :: i in perms && j in perms && SameKey(perms[i], perms[j]) ==> i == j
  }

  ghost predicate Complete(s: Store) {
    forall g, p {:trigger HasCopy(s.perms, g, p)} ::
      g in s.perms && s.perms[g].from.None? && IsAncestor(s.pools, s.perms[g].pool, p) ==>
        HasCopy(s.perms, g, p)
  }

  ghost predicate Inv(s: Store) {
    TreeOk(s) && RowsOk(s) && Flat(s) && Unique(s.perms) && Complete(s)
  }

  // ---------- tree lemmas ----------

  lemma {:induction false} AncestorIsSmaller(pools: map<nat, Pool>, a: nat, p: nat)
    requires IsAncestor(pools, a, p)
    ensures a < p
    decreases p
  {
    var q := pools[p].parent.value;
    if a != q {
      AncestorIsSmaller(pools, a, q);
    }
  }

  lemma {:induction false} AncestorIsPool(s: Store, a: nat, p: nat)
    requires TreeOk(s) && IsAncestor(s.pools, a, p)
    ensures a in s.pools
    decreases p
  {
    var q := s.pools[p].parent.value;
    if a != q {
      AncestorIsPool(s, a, q);
    }
  }

  lemma {:induction false} AncestorIsTransitive(pools: map<nat, Pool>, a: nat, b: nat, c: nat)
    requires IsAncestor(pools, a, b) && IsAncestor(pools, b, c)
    ensures IsAncestor(pools, a, c)
    decreases c
  {
    var q := pools[c].parent.value;
    if b != q {
      AncestorIsTransitive(pools, a, b, q);
    }
  }

  /** Adding a pool with a fresh id changes no ancestor of an old pool. */
  lemma {:induction false} AncestorsKept(s: Store, pool: Pool, a: nat, p: nat)
    requires TreeOk(s) && p in s.pools
    ensures IsAncestor(AddPool(s, pool).pools, a, p) == IsAncestor(s.pools, a, p)
    decreases p
  {
    if s.pools[p].parent.Some? && s.pools[p].parent.value != a {
      AncestorsKept(s, pool, a, s.pools[p].parent.value);
    }
  }

  /** Removing a childless pool changes no ancestor of another pool. */
  lemma {:induction false} AncestorsKeptByDelete(s: Store, pool: nat, a: nat, p: nat)
    requires TreeOk(s) && !HasChildren(s, pool) && p in s.pools && p != pool
    ensures IsAncestor(s.pools - {pool}, a, p) == IsAncestor(s.pools, a, p)
    decreases p
  {
    if s.pools[p].parent.Some? && s.pools[p].parent.value != a {
      AncestorsKeptByDelete(s, pool, a, s.pools[p].parent.value);
    }
  }

  lemma {:induction false} LeafHasNoDescendant(s: Store, pool: nat, p: nat)
    requires TreeOk(s) && !HasChildren(s, pool)
    ensures !IsAncestor(s.pools, pool, p)
    decreases p
  {
    if p in s.pools && s.pools[p].parent.Some? {
      LeafHasNoDescendant(s, pool, s.pools[p].parent.value);
    }
  }

  // ---------- inserting rows ----------

  /** `rows` appended to the table under consecutive ids. */
  function AddRows(perms: map<nat, Perm>, next: nat, rows: seq<Perm>): (r: map<nat, Perm>)
    ensures forall k: nat :: k in r <==> k in perms || next <= k < next + |rows|
    ensures forall k: nat :: k in r ==> r[k] == if next <= k < next + |rows| then rows[k - next] else perms[k]
  {
    if rows == [] then perms
    else AddRows(perms, next, rows[..|rows| - 1])[next + |rows| - 1 := rows[|rows| - 1]]
  }

  function WithRows(s: Store, rows: seq<Perm>): Store {
    s.(perms := AddRows(s.perms, s.nextPerm, rows), nextPerm := s.nextPerm + |rows|)
  }

  ghost predicate Insertable(s: Store, rows: seq<Perm>) {
    (forall k :: 0 <= k < |rows| ==>
       rows[k].uid != "" && rows[k].role in s.roles && !Taken(s.perms, rows[k])) &&
    (forall j, k :: 0 <= j < k < |rows| ==> !SameKey(rows[j], rows[k]))
  }

  lemma NotTakenAfterAdding(perms: map<nat, Perm>, next: nat, rows: seq<Perm>, row: Perm)
    requires !Taken(perms, row) && forall k :: 0 <= k < |rows| ==> !SameKey(rows[k], row)
    ensures !Taken(AddRows(perms, next, rows), row)
  {}

  lemma InsertablePrefix(s: Store, rows: seq<Perm>)
    requires Insertable(s, rows) && rows != []
    ensures Insertable(s, rows[..|rows| - 1])
  {}

  lemma LastRowFits(s: Store, rows: seq<Perm>)
    requires Insertable(s, rows) && rows != []
    ensures var last := rows[|rows| - 1];
            last.uid != "" && last.role in s.roles && !Taken(WithRows(s, rows[..|rows| - 1]).perms, last)
  {
    var init, last := rows[..|rows| - 1], rows[|rows| - 1];
    assert forall j :: 0 <= j < |init| ==> init[j] == rows[j];
    NotTakenAfterAdding(s.perms, s.nextPerm, init, last);
  }

  lemma LastRowAdded(s: Store, rows: seq<Perm>)
    requires rows != []
    ensures Append(WithRows(s, rows[..|rows| - 1]), rows[|rows| - 1]) == WithRows(s, rows)
  {}

  lemma RowAt(s: Store, rows: seq<Perm>, k: nat)
    requires k < |rows|
    ensures s.nextPerm + k in WithRows(s, rows).perms && WithRows(s, rows).perms[s.nextPerm + k] == rows[k]
  {}

  /** Rows with fresh, pairwise different keys are all accepted. */
  lemma {:induction false} InsertAllSucceeds(s: Store, rows: seq<Perm>)
    requires Insertable(s, rows)
    ensures InsertAll(s, rows) == Ok(WithRows(s, rows))
  {
    if rows != [] {
      InsertablePrefix(s, rows);
      InsertAllSucceeds(s, rows[..|rows| - 1]);
      LastRowFits(s, rows);
      LastRowAdded(s, rows);
    }
  }

  // ---------- creation under a parent ----------

  lemma OriginsDiffer(s: Store, i: nat, j: nat)
    requires Inv(s) && i in s.perms && j in s.perms && s.perms[i].pool == s.perms[j].pool
    requires Origin(s.perms, i) == Origin(s.perms, j)
    ensures i == j
  {
    if s.perms[i].from.None? && s.perms[j].from.Some? {
      AncestorIsSmaller(s.pools, s.perms[i].pool, s.perms[j].pool);
    } else if s.perms[j].from.None? && s.perms[i].from.Some? {
      AncestorIsSmaller(s.pools, s.perms[j].pool, s.perms[i].pool);
    } else if s.perms[i].from.Some? {
      assert SameKey(s.perms[i], s.perms[j]);
    }
  }

  /** No copy made for a new pool is ever rejected by the uniqueness validation. */
  lemma CreateCopiesInsertable(s: Store, parent: nat, name: string)
    requires Inv(s) && parent in s.pools
    ensures Insertable(AddPool(s, Pool(Some(parent), name)), InheritedRows(s, parent))
  {
    var ids := PermIds(s, parent);
    var rows := InheritedRows(s, parent);
    forall j, k | 0 <= j < k < |rows|
      ensures !SameKey(rows[j], rows[k])
    {
      assert ids[j] in ids && ids[k] in ids;
      if Origin(s.perms, ids[j]) == Origin(s.perms, ids[k]) {
        OriginsDiffer(s, ids[j], ids[k]);
      }
    }
    forall k | 0 <= k < |rows|
      ensures rows[k].uid != "" && rows[k].role in s.roles && !Taken(s.perms, rows[k])
    {
      assert ids[k] in ids;
    }
  }

  function Created(s: Store, parent: nat, name: string): Store {
    WithRows(AddPool(s, Pool(Some(parent), name)), InheritedRows(s, parent))
  }

  /** Creation fails only for a missing parent or a refused name. */
  lemma CreateOutcome(s: Store, parent: nat, name: string)
    requires Inv(s)
    ensures CreateWithParent(s, parent, name) ==
            if parent !in s.pools then Err(RecordNotFound)
            else if name == "" || NameTaken(s, None, name) || NameTaken(s, Some(parent), name) then Err(RecordInvalid)
            else Ok(Created(s, parent, name))
  {
    if parent in s.pools {
      CreateCopiesInsertable(s, parent, name);
      InsertAllSucceeds(AddPool(s, Pool(Some(parent), name)), InheritedRows(s, parent));
    }
  }

  lemma NewRow(s: Store, parent: nat, name: string, k: nat)
    ensures var perms := Created(s, parent, name).perms;
            k in perms && k !in s.perms ==>
            s.nextPerm <= k < s.nextPerm + |PermIds(s, parent)| &&
            var i := PermIds(s, parent)[k - s.nextPerm];
            i in s.perms && s.perms[i].pool == parent && i < s.nextPerm && perms[k] == CopyTo(s.perms, i, s.nextPool)
  {
    if s.nextPerm <= k < s.nextPerm + |PermIds(s, parent)| {
      assert PermIds(s, parent)[k - s.nextPerm] in PermIds(s, parent);
    }
  }

  lemma NewRowIsFlat(s: Store, parent: nat, name: string, k: nat)
    requires Inv(s) && parent in s.pools
    ensures k in Created(s, parent, name).perms && k !in s.perms ==> FlatRow(Created(s, parent, name), k)
  {
    if k in Created(s, parent, name).perms && k !in s.perms {
      NewRow(s, parent, name, k);
      var i := PermIds(s, parent)[k - s.nextPerm];
      assert FlatRow(s, i);
      AncestorsKept(s, Pool(Some(parent), name), s.perms[Origin(s.perms, i)].pool, parent);
    }
  }

  lemma OldRowStaysFlat(s: Store, parent: nat, name: string, k: nat)
    requires Inv(s) && parent in s.pools && k in s.perms
    ensures k in Created(s, parent, name).perms && FlatRow(Created(s, parent, name), k)
  {
    assert FlatRow(s, k);
    if s.perms[k].from.Some? {
      AncestorsKept(s, Pool(Some(parent), name), s.perms[s.perms[k].from.value].pool, s.perms[k].pool);
    }
  }

  lemma CreateKeepsFlat(s: Store, parent: nat, name: string)
    requires Inv(s) && parent in s.pools
    ensures Flat(Created(s, parent, name))
  {
    forall k | k in Created(s, parent, name).perms
      ensures FlatRow(Created(s, parent, name), k)
    {
      if k in s.perms {
        OldRowStaysFlat(s, parent, name, k);
      } else {
        NewRowIsFlat(s, parent, name, k);
      }
    }
  }

  lemma CreateKeepsUnique(s: Store, parent: nat, name: string)
    requires Inv(s) && parent in s.pools
    ensures Unique(Created(s, parent, name).perms)
  {
    var t := Created(s, parent, name);
    forall j, k | j in t.perms && k in t.perms && SameKey(t.perms[j], t.perms[k])
      ensures j == k
    {
      if j !in s.perms {
        NewRow(s, parent, name, j);
      }
      if k !in s.perms {
        NewRow(s, parent, name, k);
      }
      if j !in s.perms && k !in s.perms {
        var ids := PermIds(s, parent);
        OriginsDiffer(s, ids[j - s.nextPerm], ids[k - s.nextPerm]);
      }
    }
  }

  /** The parent holds a row to copy for every primary row at or above it. */
  lemma RowToCopy(s: Store, parent: nat, g: nat) returns (k: nat)
    requires Inv(s)
    requires g in s.perms && s.perms[g].from.None? && AtOrAbove(s.pools, s.perms[g].pool, parent)
    ensures k < |PermIds(s, parent)| && PermIds(s, parent)[k] in s.perms && Origin(s.perms, PermIds(s, parent)[k]) == g
  {
    var ids := PermIds(s, parent);
    var i := g;
    if s.perms[g].pool != parent {
      assert HasCopy(s.perms, g, parent);
      i :| i in s.perms && s.perms[i].from == Some(g) && s.perms[i].pool == parent;
    }
    assert i in ids;
    k :| 0 <= k < |ids| && ids[k] == i;
  }

  lemma CopyForNewPool(s: Store, parent: nat, name: string, g: nat)
    requires Inv(s) && parent in s.pools
    requires g in s.perms && s.perms[g].from.None? && AtOrAbove(s.pools, s.perms[g].pool, parent)
    ensures HasCopy(Created(s, parent, name).perms, g, s.nextPool)
  {
    var k := RowToCopy(s, parent, g);
    RowAt(AddPool(s, Pool(Some(parent), name)), InheritedRows(s, parent), k);
  }

  lemma CopyKept(perms: map<nat, Perm>, all: map<nat, Perm>, g: nat, p: nat)
    requires HasCopy(perms, g, p) && forall i :: i in perms ==> i in all && all[i] == perms[i]
    ensures HasCopy(all, g, p)
  {}

  lemma CreateKeepsComplete(s: Store, parent: nat, name: string)
    requires Inv(s) && parent in s.pools
    ensures Complete(Created(s, parent, name))
  {
    var t := Created(s, parent, name);
    var pool := Pool(Some(parent), name);
    forall g, p | g in t.perms && t.perms[g].from.None? && IsAncestor(t.pools, t.perms[g].pool, p)
      ensures HasCopy(t.perms, g, p)
    {
      if g !in s.perms {
        NewRow(s, parent, name, g);
      } else if p in s.pools {
        AncestorsKept(s, pool, t.perms[g].pool, p);
        assert HasCopy(s.perms, g, p);
        CopyKept(s.perms, t.perms, g, p);
      } else {
        AncestorsKept(s, pool, t.perms[g].pool, parent);
        CopyForNewPool(s, parent, name, g);
      }
    }
  }

  lemma CreateKeepsInv(s: Store, parent: nat, name: string)
    requires Inv(s) && parent in s.pools
    ensures Inv(Created(s, parent, name))
  {
    var t := Created(s, parent, name);
    CreateKeepsFlat(s, parent, name);
    CreateKeepsUnique(s, parent, name);
    CreateKeepsComplete(s, parent, name);
    forall k | k in t.perms
      ensures k < t.nextPerm && t.perms[k].pool in t.pools && t.perms[k].uid != "" && t.perms[k].role in t.roles
    {
      if k !in s.perms {
        NewRow(s, parent, name, k);
      }
    }
  }

  // ---------- granting ----------

  function Granted(s: Store, pool: nat, uid: string, role: nat): Store {
    WithRows(Append(s, Perm(pool, uid, role, None)),
             CopiesBelow(uid, role, s.nextPerm, Descendants(s, pool)))
  }

  /** No copy of a new grant is ever rejected by the uniqueness validation. */
  lemma GrantCopiesInsertable(s: Store, pool: nat, uid: string, role: nat)
    requires Inv(s) && uid != "" && role in s.roles
    ensures Insertable(Append(s, Perm(pool, uid, role, None)), CopiesBelow(uid, role, s.nextPerm, Descendants(s, pool)))
  {
    hide TreeOk, Complete, Unique, IsAncestor;
  }

  /** A grant fails only when the user already has a primary row on the pool, the user is
      blank, or the pool or role is missing; a derived row is never what is rejected. */
  lemma GrantOutcome(s: Store, pool: nat, uid: string, role: nat)
    requires Inv(s)
    ensures Grant(s, pool, uid, role) ==
            if uid == "" || role !in s.roles || Taken(s.perms, Perm(pool, uid, role, None)) then Err(RecordInvalid)
            else if pool !in s.pools then Err(RecordNotFound)
            else Ok(Granted(s, pool, uid, role))
  {
    var primary := Perm(pool, uid, role, None);
    if uid != "" && role in s.roles && !Taken(s.perms, primary) && pool in s.pools {
      GrantCopiesInsertable(s, pool, uid, role);
      hide Inv, Insertable, Taken, Descendants;
      InsertAllSucceeds(Append(s, primary), CopiesBelow(uid, role, s.nextPerm, Descendants(s, pool)));
    }
  }

  lemma GrantedRow(s: Store, pool: nat, uid: string, role: nat, k: nat)
    requires RowsOk(s) && k in Granted(s, pool, uid, role).perms && k > s.nextPerm
    ensures var row := Granted(s, pool, uid, role).perms[k];
            row.uid == uid && row.role == role && row.from == Some(s.nextPerm) &&
            k - s.nextPerm - 1 < |Descendants(s, pool)| && row.pool == Descendants(s, pool)[k - s.nextPerm - 1] &&
            IsAncestor(s.pools, pool, row.pool)
  {
    hide RowsOk, IsAncestor, WithRows;
    BeyondNext(s, pool, uid, role, k);
    CopyBelowAt(s, pool, uid, role, k - s.nextPerm - 1);
  }

  lemma CopyBelowAt(s: Store, pool: nat, uid: string, role: nat, j: nat)
    requires j < |Descendants(s, pool)|
    ensures s.nextPerm + 1 + j in Granted(s, pool, uid, role).perms
    ensures Granted(s, pool, uid, role).perms[s.nextPerm + 1 + j] ==
            Perm(Descendants(s, pool)[j], uid, role, Some(s.nextPerm))
    ensures IsAncestor(s.pools, pool, Descendants(s, pool)[j])
  {
    hide IsAncestor, WithRows;
    var below := Descendants(s, pool);
    RowAt(Append(s, Perm(pool, uid, role, None)), CopiesBelow(uid, role, s.nextPerm, below), j);
    assert below[j] in below;
  }

  lemma BeyondNext(s: Store, pool: nat, uid: string, role: nat, k: nat)
    requires RowsOk(s) && k in Granted(s, pool, uid, role).perms && k > s.nextPerm
    ensures k - s.nextPerm - 1 < |Descendants(s, pool)|
  {
    hide Descendants, IsAncestor;
    assert k !in s.perms;
  }

  lemma CopyOfNewGrant(s: Store, pool: nat, uid: string, role: nat, p: nat)
    requires TreeOk(s) && IsAncestor(s.pools, pool, p)
    ensures HasCopy(Granted(s, pool, uid, role).perms, s.nextPerm, p)
  {
    var below := Descendants(s, pool);
    assert p in below;
    var k :| 0 <= k < |below| && below[k] == p;
    CopyBelowAt(s, pool, uid, role, k);
  }

  lemma OldRowsKept(s: Store, pool: nat, uid: string, role: nat)
    requires RowsOk(s)
    ensures var perms := Granted(s, pool, uid, role).perms;
            forall i :: i in s.perms ==> i in perms && perms[i] == s.perms[i]
  {}

  lemma GrantKeepsComplete(s: Store, pool: nat, uid: string, role: nat)
    requires Inv(s)
    ensures Complete(Granted(s, pool, uid, role))
  {
    var t := Granted(s, pool, uid, role);
    OldRowsKept(s, pool, uid, role);
    forall g, p | g in t.perms && t.perms[g].from.None? && IsAncestor(t.pools, t.perms[g].pool, p)
      ensures HasCopy(t.perms, g, p)
    {
      if g < s.nextPerm {
        assert HasCopy(s.perms, g, p);
        CopyKept(s.perms, t.perms, g, p);
      } else if g == s.nextPerm {
        CopyOfNewGrant(s, pool, uid, role, p);
      } else {
        GrantedRow(s, pool, uid, role, g);
      }
    }
  }

  lemma GrantedPrimary(s: Store, pool: nat, uid: string, role: nat)
    requires RowsOk(s)
    ensures var perms := Granted(s, pool, uid, role).perms;
            s.nextPerm in perms && perms[s.nextPerm] == Perm(pool, uid, role, None) &&
            forall k :: k in perms ==> k in s.perms || k >= s.nextPerm
  {}

  lemma BelowOnce(s: Store, pool: nat, j: nat, k: nat)
    requires j < |Descendants(s, pool)| && k < |Descendants(s, pool)| && Descendants(s, pool)[j] == Descendants(s, pool)[k]
    ensures j == k
  {}

  lemma GrantKeepsUnique(s: Store, pool: nat, uid: string, role: nat)
    requires Inv(s) && !Taken(s.perms, Perm(pool, uid, role, None))
    ensures Unique(Granted(s, pool, uid, role).perms)
  {
    var t := Granted(s, pool, uid, role);
    OldRowsKept(s, pool, uid, role);
    GrantedPrimary(s, pool, uid, role);
    forall j, k | j in t.perms && k in t.perms && SameKey(t.perms[j], t.perms[k])
      ensures j == k
    {
      hide TreeOk, Complete, IsAncestor, Granted, Descendants;
      if j > s.nextPerm {
        GrantedRow(s, pool, uid, role, j);
      }
      if k > s.nextPerm {
        GrantedRow(s, pool, uid, role, k);
      }
      if j > s.nextPerm && k > s.nextPerm {
        BelowOnce(s, pool, j - s.nextPerm - 1, k - s.nextPerm - 1);
      }
    }
  }

  lemma GrantKeepsRows(s: Store, pool: nat, uid: string, role: nat)
    requires Inv(s) && uid != "" && role in s.roles && pool in s.pools
    ensures RowsOk(Granted(s, pool, uid, role)) && Flat(Granted(s, pool, uid, role))
  {
    var t := Granted(s, pool, uid, role);
    OldRowsKept(s, pool, uid, role);
    forall k | k in t.perms
      ensures k < t.nextPerm && t.perms[k].pool in t.pools && t.perms[k].uid != "" && t.perms[k].role in t.roles
      ensures FlatRow(t, k)
    {
      if k > s.nextPerm {
        GrantedRow(s, pool, uid, role, k);
      } else if k < s.nextPerm {
        assert FlatRow(s, k);
      }
    }
  }

  lemma GrantKeepsInv(s: Store, pool: nat, uid: string, role: nat)
    requires Inv(s) && uid != "" && role in s.roles && pool in s.pools
    requires !Taken(s.perms, Perm(pool, uid, role, None))
    ensures Inv(Granted(s, pool, uid, role))
  {
    GrantKeepsComplete(s, pool, uid, role);
    GrantKeepsUnique(s, pool, uid, role);
    GrantKeepsRows(s, pool, uid, role);
  }
}
