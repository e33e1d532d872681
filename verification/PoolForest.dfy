/** Rebuilding the nested pool tree from the flat list a nested-set query returns. */
module PoolForest {
  import opened Util

  /** A listed pool and its parent_id, which need not be listed. */
  datatype Item = Item(id: nat, parent: Option<nat>)

  /** Trees in order: the first one's pool, what lies below it, and the trees after it. */
  datatype Forest = Nil | Tree(item: Item, kids: Forest, rest: Forest)

  function Leaf(x: Item): Forest {
    Tree(x, Nil, Nil)
  }

  function Ids(f: Forest): set<nat> {
    match f
    case Nil => {}
    case Tree(x, kids, rest) => {x.id} + Ids(kids) + Ids(rest)
  }

  /** Pre-order: the order of `full_set`. */
  function Flatten(f: Forest): seq<Item> {
    match f
    case Nil => []
    case Tree(x, kids, rest) => [x] + (Flatten(kids) + Flatten(rest))
  }

  function Concat(f: Forest, g: Forest): Forest {
    match f
    case Nil => g
    case Tree(x, kids, rest) => Tree(x, kids, Concat(rest, g))
  }

  /** Appends `more` to the children of the node with id `p`. */
  function Attach(f: Forest, p: nat, more: Forest): Forest {
    match f
    case Nil => Nil
    case Tree(x, kids, rest) =>
      var below := Attach(kids, p, more);
      Tree(x, if x.id == p then Concat(below, more) else below, Attach(rest, p, more))
  }

  function Place(f: Forest, x: Item): Forest {
    if x.parent.Some? && x.parent.value in Ids(f) then Attach(f, x.parent.value, Leaf(x)) else Concat(f, Leaf(x))
  }

  function BuildOn(f: Forest, list: seq<Item>): Forest
    decreases |list|
  {
    if list == [] then f else BuildOn(Place(f, list[0]), list[1..])
  }

  /** The forest `full_set_nested` returns. */
  function Build(list: seq<Item>): Forest {
    BuildOn(Nil, list)
  }

  ghost predicate DistinctIds(list: seq<Item>) {
    forall i, j :: 0 <= i < j < |list| ==> list[i].id != list[j].id
  }

  /** No pool is listed before, or is, its own parent. */
  ghost predicate ParentsFirst(list: seq<Item>) {
    forall i, j :: 0 <= i <= j < |list| ==> list[i].parent != Some(list[j].id)
  }

  predicate Distinct(f: Forest) {
    match f
    case Nil => true
    case Tree(x, kids, rest) =>
      x.id !in Ids(kids) && x.id !in Ids(rest) && Ids(kids) !! Ids(rest) && Distinct(kids) && Distinct(rest)
  }

  /** The topmost pools all name `p` as their parent. */
  predicate Under(f: Forest, p: nat) {
    f.Tree? ==> f.item.parent == Some(p) && Under(f.rest, p)
  }

  /** The topmost pools have no parent among `ids`. */
  predicate Rooted(f: Forest, ids: set<nat>) {
    f.Tree? ==> (f.item.parent.Some? ==> f.item.parent.value !in ids) && Rooted(f.rest, ids)
  }

  /** Every child sits under the parent it names. */
  predicate Linked(f: Forest) {
    match f
    case Nil => true
    case Tree(x, kids, rest) => Under(kids, x.id) && Linked(kids) && Linked(rest)
  }

  /** Distinct ids, children under their parents, and roots whose parent is not in the forest. */
  predicate WellFormed(f: Forest) {
    Distinct(f) && Linked(f) && Rooted(f, Ids(f))
  }

  // ---------- the code ----------

  class Element {
    const item: Item
    var children: seq<Element>

    constructor (item: Item)
      ensures this.item == item && children == []
    {
      this.item := item;
      children := [];
    }
  }

  /** The children arrays of the given elements, as they are now. */
  ghost function Children(elements: set<Element>): map<Element, seq<Element>>
    reads elements
  {
    map e | e in elements :: e.children
  }

  /** The elements `es` and what hangs below them form the forest `f`. */
  ghost predicate Represents(es: seq<Element>, f: Forest, children: map<Element, seq<Element>>)
    decreases f
  {
    match f
    case Nil => es == []
    case Tree(x, kids, rest) =>
      es != [] && es[0] in children && es[0].item == x &&
      Represents(children[es[0]], kids, children) && Represents(es[1..], rest, children)
  }

  method AppendChild(parent: Element, e: Element, ghost elements: set<Element>)
    requires parent in elements && e !in elements && e.children == []
    modifies parent
    ensures Children(elements + {e}) == WithChild(old(Children(elements)), parent, e)
  {
    parent.children := parent.children + [e];
  }

  /** `ref_hash` leads from an id to its element, and knows every element. */
  ghost predicate Registered(refHash: map<nat, Element>, elements: set<Element>) {
    (forall id :: id in refHash ==> refHash[id] in elements && refHash[id].item.id == id) &&
    (forall e :: e in elements ==> e.item.id in refHash && refHash[e.item.id] == e)
  }

  /** What the loop has built so far: the roots form the forest `f`, whose pools are all registered. */
  ghost predicate Built(roots: seq<Element>, refHash: map<nat, Element>, f: Forest, elements: set<Element>)
    reads elements
  {
    Represents(roots, f, Children(elements)) && refHash.Keys == Ids(f) && Registered(refHash, elements)
  }

  /** One turn of the loop: register the element, then hang it below its parent or return it as a root. */
  method PlaceElement(pool: Item, refHash: map<nat, Element>, roots: seq<Element>, ghost f: Forest,
                      ghost elements: set<Element>)
    returns (e: Element, newHash: map<nat, Element>, newRoots: seq<Element>)
    requires Built(roots, refHash, f, elements)
    requires pool.id !in refHash && pool.parent != Some(pool.id)
    modifies elements
    ensures fresh(e) && e.item == pool && newHash == refHash[pool.id := e]
    ensures Built(newRoots, newHash, Place(f, pool), elements + {e})
  {
    ghost var was := Children(elements);
    PlaceIds(f, pool);
    e := new Element(pool);
    newHash := refHash[pool.id := e];
    if pool.parent.Some? && pool.parent.value in newHash {
      var parent := newHash[pool.parent.value];
      AppendChild(parent, e, elements);
      Attached(roots, f, was, parent, e);
      newRoots := roots;
    } else {
      Appended(roots, f, was, e);
      newRoots := roots + [e];
      assert Children(elements + {e}) == was[e := []];
    }
  }

  method FullSetNested(list: seq<Item>) returns (returnTreeList: seq<Element>, ghost elements: set<Element>)
    requires DistinctIds(list) && forall x :: x in list ==> x.parent != Some(x.id)
    ensures fresh(elements)
    ensures Represents(returnTreeList, Build(list), Children(elements))
  {
    returnTreeList := [];
    var refHash: map<nat, Element> := map[];
    elements := {};
    ghost var f := Nil;
    var i := 0;
    while i < |list|
      invariant 0 <= i <= |list|
      invariant fresh(elements)
      invariant Built(returnTreeList, refHash, f, elements) && BuildOn(f, list[i..]) == Build(list)
      invariant forall k :: i <= k < |list| ==> list[k].id !in refHash
    {
      assert list[i..][1..] == list[i + 1..];
      var e;
      e, refHash, returnTreeList := PlaceElement(list[i], refHash, returnTreeList, f, elements);
      elements := elements + {e};
      f := Place(f, list[i]);
      i := i + 1;
    }
  }

  ghost function WithChild(was: map<Element, seq<Element>>, parent: Element, e: Element): map<Element, seq<Element>>
    requires parent in was
  {
    was[parent := was[parent] + [e]][e := []]
  }

  lemma {:induction false} RepresentsConcat(a: seq<Element>, f: Forest, b: seq<Element>, g: Forest,
                                            children: map<Element, seq<Element>>)
    requires Represents(a, f, children) && Represents(b, g, children)
    ensures Represents(a + b, Concat(f, g), children)
    decreases f
  {
    match f
    case Nil => assert a + b == b;
    case Tree(_, _, rest) =>
      assert (a + b)[1..] == a[1..] + b;
      RepresentsConcat(a[1..], rest, b, g, children);
  }

  lemma {:induction false} RepresentsMore(es: seq<Element>, f: Forest,
                                          was: map<Element, seq<Element>>, now: map<Element, seq<Element>>)
    requires Represents(es, f, was) && forall e :: e in was ==> e in now && now[e] == was[e]
    ensures Represents(es, f, now)
    decreases f
  {
    match f
    case Nil =>
    case Tree(_, kids, rest) =>
      RepresentsMore(was[es[0]], kids, was, now);
      RepresentsMore(es[1..], rest, was, now);
  }

  lemma LeafRepresented(e: Element, children: map<Element, seq<Element>>)
    requires e in children && children[e] == []
    ensures Represents([e], Leaf(e.item), children)
  {}

  lemma Appended(es: seq<Element>, f: Forest, was: map<Element, seq<Element>>, e: Element)
    requires Represents(es, f, was) && e !in was
    ensures Represents(es + [e], Concat(f, Leaf(e.item)), was[e := []])
  {
    RepresentsMore(es, f, was, was[e := []]);
    LeafRepresented(e, was[e := []]);
    RepresentsConcat(es, f, [e], Leaf(e.item), was[e := []]);
  }

  /** Appending a childless element to one parent's array attaches it in the forest. */
  lemma {:induction false} Attached(es: seq<Element>, f: Forest, was: map<Element, seq<Element>>,
                                    parent: Element, e: Element)
    requires Represents(es, f, was) && parent in was && e !in was
    requires forall x :: x in was && x != parent ==> x.item.id != parent.item.id
    ensures Represents(es, Attach(f, parent.item.id, Leaf(e.item)), WithChild(was, parent, e))
    decreases f
  {
    match f
    case Nil =>
    case Tree(x, kids, rest) =>
      var p, now := parent.item.id, WithChild(was, parent, e);
      Attached(was[es[0]], kids, was, parent, e);
      Attached(es[1..], rest, was, parent, e);
      if x.id == p {
        LeafRepresented(e, now);
        RepresentsConcat(was[es[0]], Attach(kids, p, Leaf(e.item)), [e], Leaf(e.item), now);
      }
  }

  // ---------- attaching ----------

  lemma {:induction false} IdsConcat(f: Forest, g: Forest)
    ensures Ids(Concat(f, g)) == Ids(f) + Ids(g)
  {
    match f
    case Nil =>
    case Tree(_, _, rest) => IdsConcat(rest, g);
  }

  lemma {:induction false} AttachIds(f: Forest, p: nat, more: Forest)
    ensures Ids(Attach(f, p, more)) == Ids(f) + if p in Ids(f) then Ids(more) else {}
  {
    match f
    case Nil =>
    case Tree(_, kids, rest) =>
      AttachIds(kids, p, more);
      AttachIds(rest, p, more);
      IdsConcat(Attach(kids, p, more), more);
  }

  lemma PlaceIds(f: Forest, x: Item)
    ensures Ids(Place(f, x)) == Ids(f) + {x.id}
  {
    if x.parent.Some? {
      AttachIds(f, x.parent.value, Leaf(x));
    }
    IdsConcat(f, Leaf(x));
  }

  lemma {:induction false} ConcatAssoc(f: Forest, g: Forest, h: Forest)
    ensures Concat(Concat(f, g), h) == Concat(f, Concat(g, h))
  {
    match f
    case Nil =>
    case Tree(_, _, rest) => ConcatAssoc(rest, g, h);
  }

  lemma {:induction false} ConcatNil(f: Forest)
    ensures Concat(f, Nil) == f
  {
    match f
    case Nil =>
    case Tree(_, _, rest) => ConcatNil(rest);
  }

  lemma {:induction false} AttachNothing(f: Forest, p: nat)
    ensures Attach(f, p, Nil) == f
  {
    match f
    case Nil =>
    case Tree(_, kids, rest) =>
      AttachNothing(kids, p);
      AttachNothing(rest, p);
      ConcatNil(kids);
  }

  lemma {:induction false} AttachAbsent(f: Forest, p: nat, more: Forest)
    requires p !in Ids(f)
    ensures Attach(f, p, more) == f
  {
    match f
    case Nil =>
    case Tree(_, kids, rest) =>
      AttachAbsent(kids, p, more);
      AttachAbsent(rest, p, more);
  }

  lemma {:induction false} AttachSplits(f: Forest, g: Forest, p: nat, more: Forest)
    ensures Attach(Concat(f, g), p, more) == Concat(Attach(f, p, more), Attach(g, p, more))
  {
    match f
    case Nil =>
    case Tree(_, _, rest) => AttachSplits(rest, g, p, more);
  }

  /** Attaching one forest and then another below the same node attaches their concatenation. */
  lemma {:induction false} AttachTwice(f: Forest, p: nat, a: Forest, b: Forest)
    requires p !in Ids(a)
    ensures Attach(Attach(f, p, a), p, b) == Attach(f, p, Concat(a, b))
  {
    match f
    case Nil =>
    case Tree(x, kids, rest) =>
      AttachTwice(kids, p, a, b);
      AttachTwice(rest, p, a, b);
      if x.id == p {
        AttachAbsent(a, p, b);
        AttachSplits(Attach(kids, p, a), a, p, b);
        var inner := Attach(Attach(kids, p, a), p, b);
        ConcatAssoc(inner, a, b);
        assert inner == Attach(kids, p, Concat(a, b));
      }
  }

  /** Attaching a bare node and then its children attaches the whole tree. */
  lemma {:induction false} AttachBelowNew(f: Forest, p: nat, x: Item, kids: Forest)
    requires x.id !in Ids(f)
    ensures Attach(Attach(f, p, Leaf(x)), x.id, kids) == Attach(f, p, Tree(x, kids, Nil))
  {
    match f
    case Nil =>
    case Tree(y, below, rest) =>
      AttachBelowNew(below, p, x, kids);
      AttachBelowNew(rest, p, x, kids);
      AttachSplits(Attach(below, p, Leaf(x)), Leaf(x), x.id, kids);
      assert Attach(Leaf(x), x.id, kids) == Tree(x, kids, Nil);
  }

  lemma {:induction false} BuildOnConcat(f: Forest, a: seq<Item>, b: seq<Item>)
    ensures BuildOn(f, a + b) == BuildOn(BuildOn(f, a), b)
    decreases |a|
  {
    if a == [] {
      assert a + b == b;
    } else {
      assert (a + b)[1..] == a[1..] + b;
      BuildOnConcat(Place(f, a[0]), a[1..], b);
    }
  }

  /** Reading a pre-order: first the pool, then what is below it, then the rest. */
  lemma BuildOnTree(f: Forest, x: Item, kids: Forest, rest: Forest)
    ensures BuildOn(f, Flatten(Tree(x, kids, rest))) ==
            BuildOn(BuildOn(Place(f, x), Flatten(kids)), Flatten(rest))
  {
    var list := Flatten(Tree(x, kids, rest));
    assert list[1..] == Flatten(kids) + Flatten(rest);
    BuildOnConcat(Place(f, x), Flatten(kids), Flatten(rest));
  }

  // ---------- flattening and building are inverse ----------

  /** Reading the pre-order of trees that belong under node `p` attaches exactly those trees. */
  lemma {:induction false} BuildUnder(f: Forest, p: nat, k: Forest)
    requires p in Ids(f) && Ids(f) !! Ids(k) && Distinct(k) && Linked(k) && Under(k, p)
    ensures BuildOn(f, Flatten(k)) == Attach(f, p, k)
    decreases k
  {
    match k
    case Nil => AttachNothing(f, p);
    case Tree(x, kids, rest) =>
      var tree := Tree(x, kids, Nil);
      BuildOnTree(f, x, kids, rest);
      AttachIds(f, p, Leaf(x));
      BuildUnder(Attach(f, p, Leaf(x)), x.id, kids);
      AttachBelowNew(f, p, x, kids);
      AttachIds(f, p, tree);
      BuildUnder(Attach(f, p, tree), p, rest);
      AttachTwice(f, p, tree, rest);
  }

  /** Reading the pre-order of root trees appends exactly those trees. */
  lemma {:induction false} BuildRoots(f: Forest, k: Forest)
    requires Ids(f) !! Ids(k) && Distinct(k) && Linked(k) && Rooted(k, Ids(f) + Ids(k))
    ensures BuildOn(f, Flatten(k)) == Concat(f, k)
    decreases k
  {
    match k
    case Nil => ConcatNil(f);
    case Tree(x, kids, rest) =>
      var tree := Tree(x, kids, Nil);
      BuildOnTree(f, x, kids, rest);
      IdsConcat(f, Leaf(x));
      BuildUnder(Concat(f, Leaf(x)), x.id, kids);
      AttachSplits(f, Leaf(x), x.id, kids);
      AttachAbsent(f, x.id, kids);
      IdsConcat(f, tree);
      assert Ids(Concat(f, tree)) + Ids(rest) == Ids(f) + Ids(k);
      BuildRoots(Concat(f, tree), rest);
      ConcatAssoc(f, tree, rest);
  }

  /** The forest is recovered from its pre-order, whatever its shape. */
  lemma BuildInvertsFlatten(f: Forest)
    requires WellFormed(f)
    ensures Build(Flatten(f)) == f
  {
    assert {} + Ids(f) == Ids(f);
    BuildRoots(Nil, f);
  }

  // ---------- every listed pool is placed once ----------

  lemma SeqAssoc(x: Item, a: seq<Item>, b: seq<Item>, c: seq<Item>)
    ensures [x] + (a + (b + c)) == ([x] + (a + b)) + c
  {}

  lemma {:induction false} FlattenConcat(f: Forest, g: Forest)
    ensures Flatten(Concat(f, g)) == Flatten(f) + Flatten(g)
  {
    match f
    case Nil =>
    case Tree(x, kids, rest) =>
      FlattenConcat(rest, g);
      SeqAssoc(x, Flatten(kids), Flatten(rest), Flatten(g));
  }

  lemma {:induction false} ConcatKeeps(f: Forest, g: Forest)
    requires Distinct(f) && Linked(f) && Distinct(g) && Linked(g) && Ids(f) !! Ids(g)
    ensures Distinct(Concat(f, g)) && Linked(Concat(f, g))
  {
    match f
    case Nil =>
    case Tree(_, _, rest) =>
      ConcatKeeps(rest, g);
      IdsConcat(rest, g);
  }

  lemma {:induction false} UnderConcat(f: Forest, g: Forest, p: nat)
    requires Under(f, p) && Under(g, p)
    ensures Under(Concat(f, g), p)
  {
    match f
    case Nil =>
    case Tree(_, _, rest) => UnderConcat(rest, g, p);
  }

  lemma {:induction false} UnderAttach(f: Forest, q: nat, p: nat, more: Forest)
    requires Under(f, q)
    ensures Under(Attach(f, p, more), q)
  {
    match f
    case Nil =>
    case Tree(_, _, rest) => UnderAttach(rest, q, p, more);
  }

  lemma {:induction false} AttachKeeps(f: Forest, x: Item)
    requires Distinct(f) && Linked(f) && x.parent.Some? && x.id !in Ids(f)
    ensures var g := Attach(f, x.parent.value, Leaf(x)); Distinct(g) && Linked(g)
  {
    match f
    case Nil =>
    case Tree(y, kids, rest) =>
      var p := x.parent.value;
      var below := Attach(kids, p, Leaf(x));
      AttachKeeps(kids, x);
      AttachKeeps(rest, x);
      AttachIds(kids, p, Leaf(x));
      AttachIds(rest, p, Leaf(x));
      UnderAttach(kids, y.id, p, Leaf(x));
      if y.id == p {
        ConcatKeeps(below, Leaf(x));
        IdsConcat(below, Leaf(x));
        UnderConcat(below, Leaf(x), p);
      }
  }

  function Bag(f: Forest): multiset<Item> {
    match f
    case Nil => multiset{}
    case Tree(x, kids, rest) => multiset{x} + Bag(kids) + Bag(rest)
  }

  lemma {:induction false} BagOfFlatten(f: Forest)
    ensures multiset(Flatten(f)) == Bag(f)
  {
    match f
    case Nil =>
    case Tree(_, kids, rest) =>
      BagOfFlatten(kids);
      BagOfFlatten(rest);
  }

  lemma {:induction false} BagConcat(f: Forest, g: Forest)
    ensures Bag(Concat(f, g)) == Bag(f) + Bag(g)
  {
    match f
    case Nil =>
    case Tree(_, _, rest) => BagConcat(rest, g);
  }

  lemma {:induction false} AttachAdds(f: Forest, p: nat, x: Item)
    requires Distinct(f)
    ensures Bag(Attach(f, p, Leaf(x))) == Bag(f) + if p in Ids(f) then multiset{x} else multiset{}
  {
    match f
    case Nil =>
    case Tree(y, kids, rest) =>
      var below := Attach(kids, p, Leaf(x));
      AttachAdds(kids, p, x);
      AttachAdds(rest, p, x);
      BagConcat(below, Leaf(x));
  }

  lemma {:induction false} RootedAttach(f: Forest, p: nat, more: Forest, ids: set<nat>)
    requires Rooted(f, ids)
    ensures Rooted(Attach(f, p, more), ids)
  {
    match f
    case Nil =>
    case Tree(_, _, rest) => RootedAttach(rest, p, more, ids);
  }

  lemma {:induction false} RootedConcat(f: Forest, g: Forest, ids: set<nat>)
    requires Rooted(f, ids) && Rooted(g, ids)
    ensures Rooted(Concat(f, g), ids)
  {
    match f
    case Nil =>
    case Tree(_, _, rest) => RootedConcat(rest, g, ids);
  }

  lemma {:induction false} RootedMore(f: Forest, ids: set<nat>, id: nat)
    requires Rooted(f, ids) && forall x :: x in Flatten(f) ==> x.parent != Some(id)
    ensures Rooted(f, ids + {id})
  {
    match f
    case Nil =>
    case Tree(x, kids, rest) =>
      assert Flatten(f)[0] == x;
      forall y | y in Flatten(rest)
        ensures y in Flatten(f)
      {
        assert y in Flatten(kids) + Flatten(rest);
      }
      RootedMore(rest, ids, id);
  }

  lemma PlaceAdds(f: Forest, x: Item)
    requires Distinct(f)
    ensures Bag(Place(f, x)) == Bag(f) + multiset{x}
  {
    if x.parent.Some? && x.parent.value in Ids(f) {
      AttachAdds(f, x.parent.value, x);
    } else {
      BagConcat(f, Leaf(x));
    }
  }

  lemma PlaceKeeps(f: Forest, x: Item)
    requires WellFormed(f) && x.id !in Ids(f) && x.parent != Some(x.id)
    requires forall y :: y in Flatten(f) ==> y.parent != Some(x.id)
    ensures WellFormed(Place(f, x))
  {
    var ids := Ids(f) + {x.id};
    PlaceIds(f, x);
    RootedMore(f, Ids(f), x.id);
    if x.parent.Some? && x.parent.value in Ids(f) {
      AttachKeeps(f, x);
      RootedAttach(f, x.parent.value, Leaf(x), ids);
    } else {
      ConcatKeeps(f, Leaf(x));
      RootedConcat(f, Leaf(x), ids);
    }
  }

  lemma {:induction false} IdsFlattened(f: Forest, id: nat)
    ensures id in Ids(f) <==> exists x :: x in Flatten(f) && x.id == id
  {
    match f
    case Nil =>
    case Tree(y, kids, rest) =>
      IdsFlattened(kids, id);
      IdsFlattened(rest, id);
      assert forall x :: x in Flatten(f) <==> x == y || x in Flatten(kids) || x in Flatten(rest);
  }

  /** Every listed pool appears exactly once, under its parent if that is listed and as a root
      otherwise. */
  lemma {:induction false} EveryPoolPlacedOnce(list: seq<Item>)
    requires DistinctIds(list) && ParentsFirst(list)
    ensures WellFormed(Build(list)) && multiset(Flatten(Build(list))) == multiset(list)
  {
    if list != [] {
      var init, x := list[..|list| - 1], list[|list| - 1];
      assert list == init + [x];
      EveryPoolPlacedOnce(init);
      var f := Build(init);
      BuildOnConcat(Nil, init, [x]);
      assert BuildOn(f, [x]) == Place(f, x);
      forall y | y in Flatten(f)
        ensures y.parent != Some(x.id) && y.id != x.id
      {
        assert y in multiset(init);
      }
      IdsFlattened(f, x.id);
      PlaceKeeps(f, x);
      PlaceAdds(f, x);
      BagOfFlatten(f);
      BagOfFlatten(Place(f, x));
    }
  }

  // ---------- when the order is kept ----------

  /** The stack up to and including `p`; empty when `p` is not on it. */
  function Cut(stack: seq<nat>, p: Option<nat>): seq<nat> {
    if stack == [] || p.None? then []
    else if stack[|stack| - 1] == p.value then stack
    else Cut(stack[..|stack| - 1], p)
  }

  /** The pools still open after reading the list: the last one and those it was placed below. */
  function Stack(list: seq<Item>): seq<nat> {
    if list == [] then []
    else
      var init, x := list[..|list| - 1], list[|list| - 1];
      Cut(Stack(init), x.parent) + [x.id]
  }

  predicate Listed(list: seq<Item>, p: Option<nat>) {
    exists k :: 0 <= k < |list| && p == Some(list[k].id)
  }

  /** No pool comes after its parent was closed: a check on the flat list alone. */
  predicate ReturnsToOpenPools(list: seq<Item>) {
    list == [] ||
    var init, x := list[..|list| - 1], list[|list| - 1];
    ReturnsToOpenPools(init) && (Listed(init, x.parent) ==> x.parent.value in Stack(init))
  }

  /** The rightmost branch of the last tree. */
  function Spine(f: Forest): seq<nat> {
    match f
    case Nil => []
    case Tree(x, kids, rest) => if rest.Nil? then [x.id] + Spine(kids) else Spine(rest)
  }

  lemma {:induction false} SpineIds(f: Forest)
    ensures forall p :: p in Spine(f) ==> p in Ids(f)
  {
    match f
    case Nil =>
    case Tree(_, kids, rest) =>
      SpineIds(kids);
      SpineIds(rest);
  }

  lemma {:induction false} CutBelow(a: seq<nat>, b: seq<nat>, p: nat)
    requires p in b || p !in a
    ensures p in b ==> Cut(a + b, Some(p)) == a + Cut(b, Some(p))
    ensures p !in a + b ==> Cut(a + b, Some(p)) == []
  {
    if b == [] {
      if a != [] {
        assert a + b == a && a[..|a| - 1] + [] == a[..|a| - 1];
        CutBelow(a[..|a| - 1], [], p);
      }
    } else {
      var n := |b| - 1;
      assert (a + b)[..|a + b| - 1] == a + b[..n];
      if b[n] != p {
        CutBelow(a, b[..n], p);
      }
    }
  }

  lemma {:induction false} CutAbove(a: nat, b: seq<nat>)
    requires a !in b
    ensures Cut([a] + b, Some(a)) == [a]
  {
    if b != [] {
      var n := |b| - 1;
      assert ([a] + b)[..|[a] + b| - 1] == [a] + b[..n];
      CutAbove(a, b[..n]);
    }
  }

  lemma {:induction false} AppendedLast(f: Forest, x: Item)
    ensures Spine(Concat(f, Leaf(x))) == [x.id] && Flatten(Concat(f, Leaf(x))) == Flatten(f) + [x]
  {
    match f
    case Nil =>
    case Tree(_, _, rest) => AppendedLast(rest, x);
  }

  /** Attaching below the rightmost branch puts the pool last. */
  lemma {:induction false} AttachedLast(f: Forest, p: nat, x: Item)
    requires Distinct(f) && p in Spine(f)
    ensures Flatten(Attach(f, p, Leaf(x))) == Flatten(f) + [x]
    ensures Spine(Attach(f, p, Leaf(x))) == Cut(Spine(f), Some(p)) + [x.id]
  {
    match f
    case Nil =>
    case Tree(y, kids, rest) =>
      SpineIds(kids);
      SpineIds(rest);
      if rest.Tree? {
        AttachAbsent(kids, p, Leaf(x));
        AttachedLast(rest, p, x);
      } else if y.id == p {
        AttachAbsent(kids, p, Leaf(x));
        AppendedLast(kids, x);
        CutAbove(p, Spine(kids));
      } else {
        AttachedLast(kids, p, x);
        CutBelow([y.id], Spine(kids), p);
      }
  }

  /** Attaching elsewhere leaves the last pool last. */
  lemma {:induction false} AttachedEarlier(f: Forest, p: nat, x: Item)
    requires f.Tree? && p !in Spine(f)
    ensures var was, now := Flatten(f), Flatten(Attach(f, p, Leaf(x)));
            now[|now| - 1] == was[|was| - 1]
  {
    if f.rest.Tree? {
      AttachedEarlier(f.rest, p, x);
    } else if f.kids.Tree? {
      AttachedEarlier(f.kids, p, x);
    }
  }

  lemma InsertedBelow(y: Item, a: seq<Item>, x: Item, b: seq<Item>, c: seq<Item>)
    ensures [y] + ((a + b) + c) == ([y] + a) + (b + c)
    ensures [y] + ((a + [x] + b) + c) == ([y] + a) + [x] + (b + c)
  {}

  /** Placing a pool inserts it into the order somewhere. */
  lemma {:induction false} AttachInserts(f: Forest, p: nat, x: Item) returns (a: seq<Item>, b: seq<Item>)
    requires Distinct(f) && p in Ids(f)
    ensures Flatten(f) == a + b && Flatten(Attach(f, p, Leaf(x))) == a + [x] + b
  {
    match f
    case Tree(y, kids, rest) =>
      if p in Ids(rest) {
        AttachAbsent(kids, p, Leaf(x));
        var c, d := AttachInserts(rest, p, x);
        a, b := [y] + (Flatten(kids) + c), d;
        SeqAssoc(y, Flatten(kids), c, d);
        SeqAssoc(y, Flatten(kids), c + [x], d);
        SeqAssoc(y, Flatten(kids), c, [x]);
      } else {
        AttachAbsent(rest, p, Leaf(x));
        var c, d: seq<Item> := Flatten(kids), [];
        if y.id == p {
          AttachAbsent(kids, p, Leaf(x));
          AppendedLast(kids, x);
          assert c + d == c && c + [x] + d == c + [x];
        } else {
          c, d := AttachInserts(kids, p, x);
        }
        a, b := [y] + c, d + Flatten(rest);
        InsertedBelow(y, c, x, d, Flatten(rest));
      }
  }

  /** One pool is placed last exactly when its parent is not there or is on the rightmost branch. */
  lemma PlacedLastIff(f: Forest, x: Item)
    requires Distinct(f) && x !in Flatten(f)
    ensures var kept := Flatten(Place(f, x)) == Flatten(f) + [x];
            (kept <==> (x.parent.Some? && x.parent.value in Ids(f) ==> x.parent.value in Spine(f))) &&
            (kept ==> Spine(Place(f, x)) == Cut(Spine(f), x.parent) + [x.id])
  {
    SpineIds(f);
    if x.parent.None? || x.parent.value !in Ids(f) {
      AppendedLast(f, x);
      if x.parent.Some? {
        CutBelow(Spine(f), [], x.parent.value);
        assert Spine(f) + [] == Spine(f);
      }
    } else if x.parent.value in Spine(f) {
      AttachedLast(f, x.parent.value, x);
    } else {
      AttachedEarlier(f, x.parent.value, x);
    }
  }

  /** A list whose order is kept has every prefix kept. */
  lemma PrefixKept(f: Forest, x: Item, list: seq<Item>)
    requires Distinct(f) && x !in list && x !in Flatten(f) && Flatten(Place(f, x)) == list + [x]
    ensures Flatten(f) == list
  {
    if x.parent.Some? && x.parent.value in Ids(f) {
      var a, b := AttachInserts(f, x.parent.value, x);
      assert (list + [x])[|a|] == x;
      assert b == [] && list == (list + [x])[..|a|];
    } else {
      AppendedLast(f, x);
      assert list == (list + [x])[..|list|];
    }
  }

  lemma BuiltBefore(init: seq<Item>, x: Item)
    requires DistinctIds(init + [x]) && ParentsFirst(init + [x])
    ensures DistinctIds(init) && ParentsFirst(init) && Build(init + [x]) == Place(Build(init), x)
    ensures x !in init && Distinct(Build(init)) && x !in Flatten(Build(init))
    ensures x.parent.Some? ==> (Listed(init, x.parent) <==> x.parent.value in Ids(Build(init)))
  {
    var list := init + [x];
    assert forall k :: 0 <= k < |init| ==> init[k] == list[k];
    assert list[|init|] == x;
    EveryPoolPlacedOnce(init);
    BuildOnConcat(Nil, init, [x]);
    assert BuildOn(Build(init), [x]) == Place(Build(init), x);
    assert x !in multiset(init);
    if x.parent.Some? {
      IdsFlattened(Build(init), x.parent.value);
      assert forall y :: y in Flatten(Build(init)) <==> y in multiset(init);
    }
  }

  lemma PreorderStep(init: seq<Item>, x: Item, f: Forest)
    requires Distinct(f) && x !in init && x !in Flatten(f)
    requires x.parent.Some? ==> (Listed(init, x.parent) <==> x.parent.value in Ids(f))
    requires Flatten(f) == init ==> Spine(f) == Stack(init)
    ensures var kept := Flatten(Place(f, x)) == init + [x];
            (kept <==> Flatten(f) == init && (Listed(init, x.parent) ==> x.parent.value in Stack(init))) &&
            (kept ==> Spine(Place(f, x)) == Cut(Stack(init), x.parent) + [x.id])
  {
    PlacedLastIff(f, x);
    if Flatten(Place(f, x)) == init + [x] {
      PrefixKept(f, x, init);
    }
  }

  /** The pre-order of what is returned is the list itself exactly when the list never comes back
      to a pool it has closed. */
  lemma {:induction false} PreorderKeptIff(list: seq<Item>)
    requires DistinctIds(list) && ParentsFirst(list)
    ensures Flatten(Build(list)) == list <==> ReturnsToOpenPools(list)
    ensures Flatten(Build(list)) == list ==> Spine(Build(list)) == Stack(list)
  {
    if list != [] {
      var init, x := list[..|list| - 1], list[|list| - 1];
      assert list == init + [x];
      BuiltBefore(init, x);
      PreorderKeptIff(init);
      PreorderStep(init, x, Build(init));
    }
  }

  // ---------- the visible part of the pool tree ----------

  /** The query's permission condition keeps the visible pools of the pre-order. */
  function Visible(list: seq<Item>, ids: set<nat>): seq<Item> {
    if list == [] then []
    else (if list[0].id in ids then [list[0]] else []) + Visible(list[1..], ids)
  }

  /** The topmost visible trees. */
  function VisibleTrees(f: Forest, ids: set<nat>): Forest {
    match f
    case Nil => Nil
    case Tree(x, kids, rest) =>
      Concat(if x.id in ids then Tree(x, kids, Nil) else VisibleTrees(kids, ids), VisibleTrees(rest, ids))
  }

  /** Below a visible pool everything is visible, as inherited permissions make it. */
  predicate ClosedBelow(f: Forest, ids: set<nat>) {
    match f
    case Nil => true
    case Tree(x, kids, rest) =>
      (x.id in ids ==> Ids(kids) <= ids) && ClosedBelow(kids, ids) && ClosedBelow(rest, ids)
  }

  lemma {:induction false} VisibleConcat(a: seq<Item>, b: seq<Item>, ids: set<nat>)
    ensures Visible(a + b, ids) == Visible(a, ids) + Visible(b, ids)
  {
    if a == [] {
      assert a + b == b;
    } else {
      assert (a + b)[1..] == a[1..] + b;
      VisibleConcat(a[1..], b, ids);
      var first := if a[0].id in ids then [a[0]] else [];
      assert first + (Visible(a[1..], ids) + Visible(b, ids)) == (first + Visible(a[1..], ids)) + Visible(b, ids);
    }
  }

  lemma VisibleFirst(f: Forest, ids: set<nat>)
    requires f.Tree?
    ensures Visible(Flatten(f), ids) ==
            (if f.item.id in ids then [f.item] else []) + (Visible(Flatten(f.kids), ids) + Visible(Flatten(f.rest), ids))
  {
    assert Flatten(f)[1..] == Flatten(f.kids) + Flatten(f.rest);
    VisibleConcat(Flatten(f.kids), Flatten(f.rest), ids);
  }

  lemma {:induction false} AllVisible(f: Forest, ids: set<nat>)
    requires Ids(f) <= ids
    ensures Visible(Flatten(f), ids) == Flatten(f)
  {
    match f
    case Nil =>
    case Tree(_, kids, rest) =>
      AllVisible(kids, ids);
      AllVisible(rest, ids);
      VisibleFirst(f, ids);
  }

  lemma {:induction false} VisibleFlatten(f: Forest, ids: set<nat>)
    requires ClosedBelow(f, ids)
    ensures Visible(Flatten(f), ids) == Flatten(VisibleTrees(f, ids))
  {
    match f
    case Nil =>
    case Tree(x, kids, rest) =>
      VisibleFirst(f, ids);
      VisibleFlatten(rest, ids);
      if x.id in ids {
        AllVisible(kids, ids);
        assert Concat(Nil, VisibleTrees(rest, ids)) == VisibleTrees(rest, ids);
      } else {
        VisibleFlatten(kids, ids);
        FlattenConcat(VisibleTrees(kids, ids), VisibleTrees(rest, ids));
      }
  }

  lemma {:induction false} VisibleIds(f: Forest, ids: set<nat>)
    requires ClosedBelow(f, ids)
    ensures Ids(VisibleTrees(f, ids)) <= ids && Ids(VisibleTrees(f, ids)) <= Ids(f)
  {
    match f
    case Nil =>
    case Tree(x, kids, rest) =>
      VisibleIds(kids, ids);
      VisibleIds(rest, ids);
      IdsConcat(VisibleTrees(kids, ids), VisibleTrees(rest, ids));
      IdsConcat(Tree(x, kids, Nil), VisibleTrees(rest, ids));
  }

  lemma {:induction false} UnderIsRooted(f: Forest, p: nat, ids: set<nat>)
    requires Under(f, p) && p !in ids
    ensures Rooted(f, ids)
  {
    match f
    case Nil =>
    case Tree(_, _, rest) => UnderIsRooted(rest, p, ids);
  }

  /** The topmost visible trees are well formed: the parent of each root is not visible. */
  lemma {:induction false} VisibleTreesFit(f: Forest, ids: set<nat>)
    requires Distinct(f) && Linked(f) && Rooted(f, ids) && ClosedBelow(f, ids)
    ensures var g := VisibleTrees(f, ids); Distinct(g) && Linked(g) && Rooted(g, ids)
  {
    match f
    case Nil =>
    case Tree(x, kids, rest) =>
      VisibleTreesFit(rest, ids);
      VisibleIds(rest, ids);
      var first := if x.id in ids then Tree(x, kids, Nil) else VisibleTrees(kids, ids);
      if x.id !in ids {
        UnderIsRooted(kids, x.id, ids);
        VisibleTreesFit(kids, ids);
        VisibleIds(kids, ids);
      }
      ConcatKeeps(first, VisibleTrees(rest, ids));
      RootedConcat(first, VisibleTrees(rest, ids), ids);
  }

  lemma {:induction false} RootedFewer(f: Forest, ids: set<nat>, fewer: set<nat>)
    requires Rooted(f, ids) && fewer <= ids
    ensures Rooted(f, fewer)
  {
    match f
    case Nil =>
    case Tree(_, _, rest) => RootedFewer(rest, ids, fewer);
  }

  /** If visibility is closed under descendants, what is returned for the visible pools is the
      pool tree cut down to its topmost visible trees, and its pre-order is the query's result. */
  lemma VisibleTreeRecovered(tree: Forest, ids: set<nat>)
    requires WellFormed(tree) && ClosedBelow(tree, ids) && ids <= Ids(tree)
    ensures Build(Visible(Flatten(tree), ids)) == VisibleTrees(tree, ids)
    ensures Flatten(Build(Visible(Flatten(tree), ids))) == Visible(Flatten(tree), ids)
  {
    var g := VisibleTrees(tree, ids);
    RootedFewer(tree, Ids(tree), ids);
    VisibleFlatten(tree, ids);
    VisibleTreesFit(tree, ids);
    VisibleIds(tree, ids);
    RootedFewer(g, ids, Ids(g));
    BuildInvertsFlatten(g);
  }

  /** A hidden pool between two visible ones can change the order: 1 holds 2 (hidden) and 4, and
      2 holds 3.  Pool 3 becomes a root, and 4 comes back before it. */
  lemma HiddenParentReorders(list: seq<Item>)
    requires list == [Item(1, Some(0)), Item(3, Some(2)), Item(4, Some(1))]
    ensures Flatten(Build(list)) == [list[0], list[2], list[1]]
  {
    var f, g := Tree(list[0], Nil, Leaf(list[1])), Tree(list[0], Leaf(list[2]), Leaf(list[1]));
    assert Place(Nil, list[0]) == Leaf(list[0]) && Place(Leaf(list[0]), list[1]) == f;
    assert 1 in Ids(f) && Attach(f, 1, Leaf(list[2])) == g;
    assert list[1..] == [list[1], list[2]] && [list[1], list[2]][1..] == [list[2]] && [list[2]][1..] == [];
    assert BuildOn(f, [list[2]]) == BuildOn(g, []) == g;
    assert BuildOn(Leaf(list[0]), [list[1], list[2]]) == BuildOn(f, [list[2]]);
    assert Flatten(Leaf(list[1])) == [list[1]] && Flatten(Leaf(list[2])) == [list[2]];
  }
}
