/** A run that destroys an inherited row: the grant stays, and the table denies it. */
module DestroyedCopy {
  import opened Util
  import opened Permissions
  import opened PermissionRuns

  const VIEWER: map<nat, set<string>> := map[1 := {"view"}]

  /** Pools 1 below 0, 2 and 4 below 1, and 3 below 2. */
  const FIVE_POOLS: map<nat, Pool> := map[
    0 := Pool(None, "root"), 1 := Pool(Some(0), "a"), 2 := Pool(Some(1), "b"), 3 := Pool(Some(2), "c"),
    4 := Pool(Some(1), "d")
  ]

  /** The user may view pool 1 and what is below it; then the row inherited by pool 2 is destroyed. */
  const DESTROYING: seq<Op> := [
    OpCreate(0, "a"), OpCreate(1, "b"), OpCreate(2, "c"), OpCreate(1, "d"), OpGrant(1, "u", 1), OpRevoke(1)
  ]

  lemma RunStep(s: Store, ops: seq<Op>, n: nat)
    requires 0 < n <= |ops|
    ensures Run(s, ops[..n]) == Step(Run(s, ops[..n - 1]), ops[n - 1])
  {
    assert ops[..n][..n - 1] == ops[..n - 1];
  }

  lemma CreateWithoutRows(s: Store, parent: nat, name: string)
    requires s.perms == map[] && s.nextPerm == 0 && parent in s.pools
    requires name != "" && !NameTaken(s, None, name) && !NameTaken(s, Some(parent), name)
    ensures Step(s, OpCreate(parent, name)) == AddPool(s, Pool(Some(parent), name))
  {
    hide NameTaken;
    assert PermIds(s, parent) == [];
  }

  function FourCreated(): Store {
    Store(FIVE_POOLS, map[], 5, 0, VIEWER)
  }

  lemma AfterFourCreations()
    ensures Run(Fresh("root", VIEWER), DESTROYING[..4]) == FourCreated()
  {
    hide Step;
    var s0 := Fresh("root", VIEWER);
    assert Run(s0, DESTROYING[..0]) == s0;
    RunStep(s0, DESTROYING, 1);
    RunStep(s0, DESTROYING, 2);
    RunStep(s0, DESTROYING, 3);
    RunStep(s0, DESTROYING, 4);
    CreateWithoutRows(s0, 0, "a");
    var s1 := AddPool(s0, Pool(Some(0), "a"));
    CreateWithoutRows(s1, 1, "b");
    var s2 := AddPool(s1, Pool(Some(1), "b"));
    CreateWithoutRows(s2, 2, "c");
    var s3 := AddPool(s2, Pool(Some(2), "c"));
    CreateWithoutRows(s3, 1, "d");
    assert AddPool(s3, Pool(Some(1), "d")).pools == FIVE_POOLS;
  }

  lemma BelowInFivePools(p: nat)
    ensures IsAncestor(FIVE_POOLS, 1, p) <==> p == 2 || p == 3 || p == 4
  {
    if p == 3 {
      assert IsAncestor(FIVE_POOLS, 1, 2);
    }
  }

  lemma BelowPoolOne()
    ensures Descendants(FourCreated(), 1) == [2, 3, 4]
  {
    hide IsAncestor;
    var below := Descendants(FourCreated(), 1);
    forall p: nat
      ensures p in below <==> p == 2 || p == 3 || p == 4
    {
      BelowInFivePools(p);
    }
    AscendingIs(below, 2, 3, 4);
  }

  lemma AscendingIs(s: seq<nat>, a: nat, b: nat, c: nat)
    requires forall j, k :: 0 <= j < k < |s| ==> s[j] < s[k]
    requires a < b < c && forall x: nat :: x in s <==> x == a || x == b || x == c
    ensures s == [a, b, c]
  {
    assert a in s && b in s && c in s;
    var i :| 0 <= i < |s| && s[i] == a;
    var j :| 0 <= j < |s| && s[j] == b;
    var k :| 0 <= k < |s| && s[k] == c;
    assert i < j < k;
    assert forall x :: 0 <= x < |s| ==> s[x] in s;
    assert s[0] == a;
    assert s[1] == b;
    assert s[2] == c;
    assert s[|s| - 1] == c;
  }

  function CopyOfGrant(pool: nat): Perm {
    Perm(pool, "u", 1, Some(0))
  }

  lemma ThreeRows(perms: map<nat, Perm>, next: nat, a: Perm, b: Perm, c: Perm)
    ensures AddRows(perms, next, [a, b, c]) == perms[next := a][next + 1 := b][next + 2 := c]
  {}

  lemma GrantedBelowPoolOne()
    ensures Granted(FourCreated(), 1, "u", 1) ==
            Store(FIVE_POOLS, map[0 := Perm(1, "u", 1, None), 1 := CopyOfGrant(2), 2 := CopyOfGrant(3),
                                  3 := CopyOfGrant(4)], 5, 4, VIEWER)
  {
    hide Descendants, AddRows;
    BelowPoolOne();
    assert CopiesBelow("u", 1, 0, [2, 3, 4]) == [CopyOfGrant(2), CopyOfGrant(3), CopyOfGrant(4)];
    ThreeRows(map[0 := Perm(1, "u", 1, None)], 1, CopyOfGrant(2), CopyOfGrant(3), CopyOfGrant(4));
  }

  /** The tables after that run. */
  function Destroyed(): Store {
    Store(FIVE_POOLS, map[0 := Perm(1, "u", 1, None), 2 := CopyOfGrant(3), 3 := CopyOfGrant(4)], 5, 4, VIEWER)
  }

  lemma GrantStep()
    ensures Step(FourCreated(), OpGrant(1, "u", 1)) == Granted(FourCreated(), 1, "u", 1)
    ensures Inv(Granted(FourCreated(), 1, "u", 1))
  {
    hide Granted, Grant;
    GrantOutcome(FourCreated(), 1, "u", 1);
    GrantKeepsInv(FourCreated(), 1, "u", 1);
  }

  lemma RevokeOutcome(s: Store, id: nat)
    requires id in s.perms
    ensures Step(s, OpRevoke(id)) == s.(perms := Destroy(s.perms, id))
  {}

  lemma SurvivingRows(perms: map<nat, Perm>)
    requires perms == map[0 := Perm(1, "u", 1, None), 1 := CopyOfGrant(2), 2 := CopyOfGrant(3), 3 := CopyOfGrant(4)]
    ensures (map r | r in perms && r != 1 && perms[r].from != Some(1) :: perms[r]) == Destroyed().perms
  {}

  lemma RevokeStep()
    ensures Step(Granted(FourCreated(), 1, "u", 1), OpRevoke(1)) == Destroyed()
  {
    var s := Granted(FourCreated(), 1, "u", 1);
    hide Granted, Inv, Destroy, CopyOfGrant, FourCreated;
    GrantStep();
    GrantedBelowPoolOne();
    RevokedRows(s, 1);
    SurvivingRows(s.perms);
    RevokeOutcome(s, 1);
  }

  lemma AfterDestroying()
    ensures Run(Fresh("root", VIEWER), DESTROYING) == Destroyed()
  {
    hide Step, Granted, Inv;
    var s0 := Fresh("root", VIEWER);
    AfterFourCreations();
    RunStep(s0, DESTROYING, 5);
    RunStep(s0, DESTROYING, 6);
    assert DESTROYING[..6] == DESTROYING;
    GrantStep();
    RevokeStep();
  }

  /** The grant still lies above pool 2, but the table no longer says so. */
  lemma HidesGrant()
    ensures var s := Run(Fresh("root", VIEWER), DESTROYING);
            GrantedAtOrAbove(s, 2, "u", "view") && !HasPrivilege(s, 2, "u", "view")
  {
    hide Run;
    AfterDestroying();
    assert 0 in Destroyed().perms && AtOrAbove(FIVE_POOLS, 1, 2);
  }
}
