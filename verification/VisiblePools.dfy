/** The tree of pools a user may see: the permission table decides which pools the query returns,
    and the flat result is rebuilt into a nested tree. */
module VisiblePools {
  import opened Util
  import opened Permissions
  import opened PermissionRuns
  import opened DestroyedCopy
  import opened PoolForest

  /** The forest is the pool table: the same pools, each naming its parent. */
  ghost predicate Mirrors(f: Forest, pools: map<nat, Permissions.Pool>) {
    Ids(f) == pools.Keys && ParentsMatch(f, pools)
  }

  predicate ParentsMatch(f: Forest, pools: map<nat, Permissions.Pool>) {
    match f
    case Nil => true
    case Tree(x, kids, rest) =>
      x.id in pools && x.parent == pools[x.id].parent && ParentsMatch(kids, pools) && ParentsMatch(rest, pools)
  }

  /** The pools on which the table grants the user the privilege. */
  function PoolsWith(s: Store, uid: string, priv: string): set<nat> {
    set p | p in s.pools && HasPrivilege(s, p, uid, priv)
  }

  /** `full_set_nested` for a user and a privilege, from the pre-order of the whole tree. */
  function TreeFor(s: Store, tree: Forest, uid: string, priv: string): Forest {
    Build(Visible(Flatten(tree), PoolsWith(s, uid, priv)))
  }

  /** What hangs below a pool in the forest lies below it in the table. */
  lemma {:induction false} BelowIsDescendant(f: Forest, p: nat, id: nat, s: Store)
    requires TreeOk(s) && Linked(f) && Under(f, p) && ParentsMatch(f, s.pools) && id in Ids(f)
    ensures IsAncestor(s.pools, p, id)
    decreases f
  {
    match f
    case Nil =>
    case Tree(x, kids, rest) =>
      if id in Ids(kids) {
        BelowIsDescendant(kids, x.id, id, s);
        AncestorIsTransitive(s.pools, p, x.id, id);
      } else if id in Ids(rest) {
        BelowIsDescendant(rest, p, id, s);
      }
  }

  /** A privilege on a pool reaches everything below it. */
  lemma PrivilegeDescends(s: Store, a: nat, p: nat, uid: string, priv: string)
    requires Permissions.Inv(s) && IsAncestor(s.pools, a, p) && HasPrivilege(s, a, uid, priv)
    ensures HasPrivilege(s, p, uid, priv)
  {
    PrivilegeIffGranted(s, a, uid, priv);
    var g :| g in s.perms && s.perms[g].from.None? && s.perms[g].uid == uid &&
      AtOrAbove(s.pools, s.perms[g].pool, a) && s.perms[g].role in s.roles && priv in s.roles[s.perms[g].role];
    if s.perms[g].pool != a {
      AncestorIsTransitive(s.pools, s.perms[g].pool, a, p);
    }
    PrivilegeIffGranted(s, p, uid, priv);
  }

  lemma {:induction false} VisibleIsClosed(f: Forest, s: Store, uid: string, priv: string)
    requires Permissions.Inv(s) && Linked(f) && ParentsMatch(f, s.pools) && Ids(f) <= s.pools.Keys
    ensures ClosedBelow(f, PoolsWith(s, uid, priv))
    decreases f
  {
    match f
    case Nil =>
    case Tree(x, kids, rest) =>
      VisibleIsClosed(kids, s, uid, priv);
      VisibleIsClosed(rest, s, uid, priv);
      if x.id in PoolsWith(s, uid, priv) {
        forall id | id in Ids(kids)
          ensures id in PoolsWith(s, uid, priv)
        {
          BelowIsDescendant(kids, x.id, id, s);
          PrivilegeDescends(s, x.id, id, uid, priv);
        }
      }
  }

  /** After any run of the permission calls, what a user is shown is the pool tree cut down to its
      topmost visible subtrees, whole and in order; and a pool is shown exactly when a grant of the
      privilege lies at or above it. */
  lemma UserSeesWholeSubtrees(rootName: string, roles: map<nat, set<string>>, ops: seq<Op>, tree: Forest,
                              uid: string, priv: string)
    requires AllAllowed(Fresh(rootName, roles), ops)
    requires WellFormed(tree) && Mirrors(tree, Permissions.Run(Fresh(rootName, roles), ops).pools)
    ensures var s := Permissions.Run(Fresh(rootName, roles), ops);
            TreeFor(s, tree, uid, priv) == VisibleTrees(tree, PoolsWith(s, uid, priv)) &&
            Flatten(TreeFor(s, tree, uid, priv)) == Visible(Flatten(tree), PoolsWith(s, uid, priv)) &&
            forall p :: p in PoolsWith(s, uid, priv) <==> p in s.pools && GrantedAtOrAbove(s, p, uid, priv)
  {
    var s := Permissions.Run(Fresh(rootName, roles), ops);
    RunKeepsInv(Fresh(rootName, roles), ops);
    VisibleIsClosed(tree, s, uid, priv);
    VisibleTreeRecovered(tree, PoolsWith(s, uid, priv));
    forall p | p in s.pools
      ensures p in PoolsWith(s, uid, priv) <==> GrantedAtOrAbove(s, p, uid, priv)
    {
      PrivilegeIffGranted(s, p, uid, priv);
    }
  }

  // ---------- there is such a tree ----------

  /** The pools below id `n`, in id order: parents come first. */
  function PoolItems(pools: map<nat, Permissions.Pool>, n: nat): (list: seq<Item>)
    ensures forall x :: x in list <==> x.id in pools && x.id < n && x.parent == pools[x.id].parent
    ensures forall j, k :: 0 <= j < k < |list| ==> list[j].id < list[k].id
  {
    if n == 0 then []
    else
      var below := PoolItems(pools, n - 1);
      if n - 1 in pools then
        assert forall k :: 0 <= k < |below| ==> below[k] in below;
        below + [Item(n - 1, pools[n - 1].parent)]
      else below
  }

  lemma {:induction false} ParentsMatchIf(f: Forest, pools: map<nat, Permissions.Pool>)
    requires forall x :: x in Flatten(f) ==> x.id in pools && x.parent == pools[x.id].parent
    ensures ParentsMatch(f, pools)
  {
    match f
    case Nil =>
    case Tree(x, kids, rest) =>
      assert Flatten(f) == [x] + (Flatten(kids) + Flatten(rest));
      assert x in Flatten(f);
      assert forall y :: y in Flatten(kids) || y in Flatten(rest) ==> y in Flatten(f);
      ParentsMatchIf(kids, pools);
      ParentsMatchIf(rest, pools);
  }

  lemma PoolItemsFit(s: Store)
    requires TreeOk(s)
    ensures var list := PoolItems(s.pools, s.nextPool);
            DistinctIds(list) && ParentsFirst(list) && forall x :: x in list ==> x.id in s.pools && x.parent == s.pools[x.id].parent
    ensures forall id :: id in s.pools ==> Item(id, s.pools[id].parent) in PoolItems(s.pools, s.nextPool)
  {
    var list := PoolItems(s.pools, s.nextPool);
    assert forall k :: 0 <= k < |list| ==> list[k] in list;
  }

  /** Every sound pool table has a forest that mirrors it: its pools placed in id order. */
  lemma TreeExists(s: Store) returns (tree: Forest)
    requires TreeOk(s)
    ensures WellFormed(tree) && Mirrors(tree, s.pools)
  {
    hide PoolItems, Build, WellFormed, ParentsFirst, DistinctIds, TreeOk, ParentsMatch;
    var list := PoolItems(s.pools, s.nextPool);
    PoolItemsFit(s);
    tree := Build(list);
    EveryPoolPlacedOnce(list);
    forall x
      ensures x in Flatten(tree) <==> x in list
    {
      assert x in Flatten(tree) <==> x in multiset(Flatten(tree));
    }
    ParentsMatchIf(tree, s.pools);
    forall id: nat
      ensures id in Ids(tree) <==> id in s.pools
    {
      IdsFlattened(tree, id);
    }
  }

  // ---------- when visibility is not closed ----------

  const FIVE_TREE: Forest :=
    Tree(Item(0, None),
         Tree(Item(1, Some(0)), Tree(Item(2, Some(1)), Leaf(Item(3, Some(2))), Leaf(Item(4, Some(1)))), Nil),
         Nil)

  lemma FiveTreeMirrors()
    ensures WellFormed(FIVE_TREE) && Mirrors(FIVE_TREE, FIVE_POOLS)
  {
    assert Ids(FIVE_TREE) == {0, 1, 2, 3, 4};
    assert FIVE_POOLS.Keys == {0, 1, 2, 3, 4};
  }

  lemma VisibleAfterDestroying()
    ensures PoolsWith(Destroyed(), "u", "view") == {1, 3, 4}
  {
    var s := Destroyed();
    assert 0 in s.perms && 2 in s.perms && 3 in s.perms;
    forall p
      ensures HasPrivilege(s, p, "u", "view") <==> p == 1 || p == 3 || p == 4
    {}
  }

  lemma FlatFiveTree()
    ensures Visible(Flatten(FIVE_TREE), {1, 3, 4}) == [Item(1, Some(0)), Item(3, Some(2)), Item(4, Some(1))]
  {
    var four := Leaf(Item(4, Some(1)));
    var two := Tree(Item(2, Some(1)), Leaf(Item(3, Some(2))), four);
    var one := Tree(Item(1, Some(0)), two, Nil);
    var ids: set<nat> := {1, 3, 4};
    VisibleFirst(FIVE_TREE, ids);
    VisibleFirst(one, ids);
    VisibleFirst(two, ids);
    VisibleFirst(Leaf(Item(3, Some(2))), ids);
    VisibleFirst(four, ids);
  }

  /** In the run that destroys the inherited row of pool 2, the user is shown 4 before 3, though the
      query lists 3 first. */
  lemma DestroyedCopyReorders()
    ensures var s := Permissions.Run(Fresh("root", VIEWER), DESTROYING);
            WellFormed(FIVE_TREE) && Mirrors(FIVE_TREE, s.pools) &&
            Visible(Flatten(FIVE_TREE), PoolsWith(s, "u", "view")) ==
              [Item(1, Some(0)), Item(3, Some(2)), Item(4, Some(1))] &&
            Flatten(TreeFor(s, FIVE_TREE, "u", "view")) == [Item(1, Some(0)), Item(4, Some(1)), Item(3, Some(2))]
  {
    hide Permissions.Run, PoolsWith, Visible, Flatten, Build, Mirrors, WellFormed;
    AfterDestroying();
    FiveTreeMirrors();
    VisibleAfterDestroying();
    FlatFiveTree();
    HiddenParentReorders([Item(1, Some(0)), Item(3, Some(2)), Item(4, Some(1))]);
  }
}
