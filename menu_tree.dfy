/**
 * Turning the flat navigation list into roots with children (`buildTree` in
 * components/Menu.tsx).
 *
 * The source builds one fresh node object per id and links the objects to
 * each other. Every reference it stores is `map[id]` for some id, so the
 * model names each node by its id: `nodes` maps an id to its node,
 * `children` maps an id to the ids of the nodes pushed into that node's
 * children list, and `roots` lists the ids pushed as roots.
 */
module MenuTree {
  import opened Wrappers

  /** A record of `items/navigation_items`. */
  datatype NavigationItem = NavigationItem(
    id: int,
    title: string,
    slug: Option<string>,
    url: Option<string>,
    parentId: Option<int>,
    languageCode: string)

  /** The result of `buildTree`: the node per id, the children list per id,
      and the root list. */
  datatype Tree = Tree(nodes: map<int, NavigationItem>, children: map<int, seq<int>>, roots: seq<int>)

  /** The ids occurring in `items`. */
  function Ids(items: seq<NavigationItem>): set<int> {
    set i | 0 <= i < |items| :: items[i].id
  }

  /** No two items share an id. */
  predicate DistinctIds(items: seq<NavigationItem>) {
    forall i, j :: 0 <= i < j < |items| ==> items[i].id != items[j].id
  }

  predicate NoDuplicates(s: seq<int>) {
    forall i, j :: 0 <= i < j < |s| ==> s[i] != s[j]
  }

  /** The first pass: `map[item.id] = { ...item, children: [] }` for each
      item in turn, so a repeated id keeps its last item. */
  function NodeMap(items: seq<NavigationItem>): (m: map<int, NavigationItem>)
    ensures m.Keys == Ids(items)
  {
    if items == [] then map[]
    else
      var prefix := items[..|items| - 1];
      assert forall i :: 0 <= i < |prefix| ==> prefix[i] == items[i];
      NodeMap(prefix)[items[|items| - 1].id := items[|items| - 1]]
  }

  /** `item.parent_id && map[item.parent_id]`: the parent reference is
      present, non-zero, and names an item of the list. */
  predicate HasParent(item: NavigationItem, ids: set<int>) {
    item.parentId.Some? && item.parentId.value != 0 && item.parentId.value in ids
  }

  /** The ids pushed as roots by the second pass, in input order. */
  function RootIds(items: seq<NavigationItem>, ids: set<int>): seq<int> {
    if items == [] then []
    else
      var prefix := items[..|items| - 1];
      var last := items[|items| - 1];
      RootIds(prefix, ids) + if HasParent(last, ids) then [] else [last.id]
  }

  /** The ids pushed into the children list of `parent`, in input order. */
  function ChildIds(items: seq<NavigationItem>, ids: set<int>, parent: int): seq<int> {
    if items == [] then []
    else
      var prefix := items[..|items| - 1];
      var last := items[|items| - 1];
      ChildIds(prefix, ids, parent)
        + if HasParent(last, ids) && last.parentId.value == parent then [last.id] else []
  }

  /** One more item in the first pass. */
  lemma NodeMapStep(items: seq<NavigationItem>, i: nat)
    requires i < |items|
    ensures NodeMap(items[..i + 1]) == NodeMap(items[..i])[items[i].id := items[i]]
    ensures Ids(items[..i + 1]) == Ids(items[..i]) + {items[i].id}
  {
    assert items[..i + 1][..i] == items[..i];
    assert forall k :: 0 <= k <= i ==> items[..i + 1][k] == items[k];
  }

  /** One more item in the second pass. */
  lemma PlacementStep(items: seq<NavigationItem>, ids: set<int>, i: nat)
    requires i < |items|
    ensures RootIds(items[..i + 1], ids)
      == RootIds(items[..i], ids) + if HasParent(items[i], ids) then [] else [items[i].id]
    ensures forall p :: ChildIds(items[..i + 1], ids, p) == ChildIds(items[..i], ids, p)
                          + if HasParent(items[i], ids) && items[i].parentId.value == p then [items[i].id] else []
  {
    assert items[..i + 1][..i] == items[..i];
  }

  /** The first pass of `buildTree`: a node with an empty children list
      per id. */
  method IndexNodes(items: seq<NavigationItem>)
    returns (nodes: map<int, NavigationItem>, children: map<int, seq<int>>)
    ensures nodes == NodeMap(items)
    ensures children.Keys == Ids(items)
    ensures forall p :: p in children ==> children[p] == []
  {
    nodes, children := map[], map[];
    for i := 0 to |items|
      invariant nodes == NodeMap(items[..i])
      invariant children.Keys == Ids(items[..i])
      invariant forall p :: p in children ==> children[p] == []
    {
      NodeMapStep(items, i);
      nodes := nodes[items[i].id := items[i]];
      children := children[items[i].id := []];
    }
    assert items[..|items|] == items;
  }

  /** The second pass of `buildTree`: each item, in order, is pushed into
      its parent's children list when `nodes` has a node for its non-zero
      parent reference, and onto the roots otherwise. */
  method PlaceItems(items: seq<NavigationItem>, nodes: map<int, NavigationItem>,
                    empty: map<int, seq<int>>)
    returns (children: map<int, seq<int>>, roots: seq<int>)
    requires nodes.Keys == Ids(items) && empty.Keys == Ids(items)
    requires forall p :: p in empty ==> empty[p] == []
    ensures children.Keys == Ids(items)
    ensures forall p :: p in children ==> children[p] == ChildIds(items, Ids(items), p)
    ensures roots == RootIds(items, Ids(items))
  {
    var ids := Ids(items);
    children, roots := empty, [];
    for i := 0 to |items|
      invariant children.Keys == ids
      invariant forall p :: p in children ==> children[p] == ChildIds(items[..i], ids, p)
      invariant roots == RootIds(items[..i], ids)
    {
      PlacementStep(items, ids, i);
      var item := items[i];
      if item.parentId.Some? && item.parentId.value != 0 && item.parentId.value in nodes {
        var p := item.parentId.value;
        children := children[p := children[p] + [item.id]];
      } else {
        roots := roots + [item.id];
      }
    }
    assert items[..|items|] == items;
  }

  /** The tree `buildTree` returns for `items`. */
  function TreeOf(items: seq<NavigationItem>): Tree {
    Tree(NodeMap(items),
         map p | p in Ids(items) :: ChildIds(items, Ids(items), p),
         RootIds(items, Ids(items)))
  }

  /** Every id the tree refers to has a node. */
  predicate WellFormed(tree: Tree) {
    && (forall k :: k in tree.roots ==> k in tree.nodes)
    && (forall p :: p in tree.children ==> p in tree.nodes)
    && (forall p, j :: p in tree.children && 0 <= j < |tree.children[p]| ==>
          tree.children[p][j] in tree.nodes)
  }

  /** `buildTree`: the two passes, returning the roots together with the
      nodes they refer to. */
  method BuildTree(items: seq<NavigationItem>) returns (tree: Tree)
    ensures tree == TreeOf(items)
  {
    var nodes, empty := IndexNodes(items);
    var children, roots := PlaceItems(items, nodes, empty);
    tree := Tree(nodes, children, roots);
  }

  /** The roots are the ids of the items without a resolvable parent. */
  lemma {:induction false} RootIdsMembers(items: seq<NavigationItem>, ids: set<int>)
    ensures forall k :: k in RootIds(items, ids) <==>
      exists i :: 0 <= i < |items| && items[i].id == k && !HasParent(items[i], ids)
  {
    if items != [] {
      var prefix := items[..|items| - 1];
      assert forall i :: 0 <= i < |prefix| ==> prefix[i] == items[i];
      RootIdsMembers(prefix, ids);
    }
  }

  /** The children of `parent` are the ids of the items whose resolvable
      parent is `parent`. */
  lemma {:induction false} ChildIdsMembers(items: seq<NavigationItem>, ids: set<int>, parent: int)
    ensures forall k :: k in ChildIds(items, ids, parent) <==>
      exists i :: 0 <= i < |items| && items[i].id == k
        && HasParent(items[i], ids) && items[i].parentId.value == parent
  {
    if items != [] {
      var prefix := items[..|items| - 1];
      assert forall i :: 0 <= i < |prefix| ==> prefix[i] == items[i];
      ChildIdsMembers(prefix, ids, parent);
    }
  }

  /** The tree refers only to ids of the list, each of which has a node. */
  lemma TreeOfWellFormed(items: seq<NavigationItem>)
    ensures WellFormed(TreeOf(items))
  {
    var ids := Ids(items);
    RootIdsMembers(items, ids);
    forall p, j | p in ids && 0 <= j < |ChildIds(items, ids, p)|
      ensures ChildIds(items, ids, p)[j] in ids
    {
      ChildIdsMembers(items, ids, p);
      assert ChildIds(items, ids, p)[j] in ChildIds(items, ids, p);
    }
  }

  /** With distinct ids each item's node is that item. */
  lemma {:induction false} NodeMapDistinct(items: seq<NavigationItem>, i: nat)
    requires DistinctIds(items)
    requires i < |items|
    ensures NodeMap(items)[items[i].id] == items[i]
  {
    var prefix := items[..|items| - 1];
    if i < |items| - 1 {
      assert DistinctIds(prefix);
      NodeMapDistinct(prefix, i);
    }
  }

  /** With distinct ids no list of the tree repeats an id. */
  lemma {:induction false} RootIdsNoDuplicates(items: seq<NavigationItem>, ids: set<int>)
    requires DistinctIds(items)
    ensures NoDuplicates(RootIds(items, ids))
  {
    if items != [] {
      var prefix := items[..|items| - 1];
      assert DistinctIds(prefix);
      RootIdsNoDuplicates(prefix, ids);
      RootIdsMembers(prefix, ids);
      assert items[|items| - 1].id !in RootIds(prefix, ids);
    }
  }

  lemma {:induction false} ChildIdsNoDuplicates(items: seq<NavigationItem>, ids: set<int>, parent: int)
    requires DistinctIds(items)
    ensures NoDuplicates(ChildIds(items, ids, parent))
  {
    if items != [] {
      var prefix := items[..|items| - 1];
      assert DistinctIds(prefix);
      ChildIdsNoDuplicates(prefix, ids, parent);
      ChildIdsMembers(prefix, ids, parent);
      assert items[|items| - 1].id !in ChildIds(prefix, ids, parent);
    }
  }

  /** Given distinct ids, each item is placed exactly once: among the roots
      exactly when it has no resolvable non-zero parent, and otherwise in
      the children list of its parent and of no other node. Dangling and
      zero parent references therefore make an item a root. */
  lemma PlacedExactlyOnce(items: seq<NavigationItem>, i: nat)
    requires DistinctIds(items)
    requires i < |items|
    ensures var tree := TreeOf(items);
      && (items[i].id in tree.roots <==> !HasParent(items[i], Ids(items)))
      && (forall p :: p in tree.children ==>
            (items[i].id in tree.children[p] <==>
              HasParent(items[i], Ids(items)) && items[i].parentId.value == p))
      && NoDuplicates(tree.roots)
      && (forall p :: p in tree.children ==> NoDuplicates(tree.children[p]))
  {
    var ids := Ids(items);
    RootIdsMembers(items, ids);
    RootIdsNoDuplicates(items, ids);
    forall p | p in ids
      ensures NoDuplicates(ChildIds(items, ids, p))
      ensures items[i].id in ChildIds(items, ids, p) <==>
        HasParent(items[i], ids) && items[i].parentId.value == p
    {
      ChildIdsMembers(items, ids, p);
      ChildIdsNoDuplicates(items, ids, p);
    }
  }

  /** Roots keep input order: of two root items, the earlier one comes
      first among the roots. */
  lemma {:induction false} RootsKeepInputOrder(items: seq<NavigationItem>, ids: set<int>, i: nat, j: nat)
    requires i < j < |items|
    requires !HasParent(items[i], ids) && !HasParent(items[j], ids)
    ensures exists a, b :: (0 <= a < b < |RootIds(items, ids)|
      && RootIds(items, ids)[a] == items[i].id && RootIds(items, ids)[b] == items[j].id)
  {
    var prefix := items[..|items| - 1];
    var roots := RootIds(items, ids);
    assert forall k :: 0 <= k < |prefix| ==> prefix[k] == items[k];
    if j == |items| - 1 {
      RootIdsMembers(prefix, ids);
      assert items[i].id in RootIds(prefix, ids);
      var a :| 0 <= a < |RootIds(prefix, ids)| && RootIds(prefix, ids)[a] == items[i].id;
      assert roots[a] == items[i].id && roots[|RootIds(prefix, ids)|] == items[j].id;
    } else {
      RootsKeepInputOrder(prefix, ids, i, j);
      var a, b :| 0 <= a < b < |RootIds(prefix, ids)|
        && RootIds(prefix, ids)[a] == items[i].id && RootIds(prefix, ids)[b] == items[j].id;
      assert roots[a] == items[i].id && roots[b] == items[j].id;
    }
  }

  /** Children keep input order: of two children of one parent, the earlier
      item comes first in the parent's list. */
  lemma {:induction false} ChildrenKeepInputOrder(items: seq<NavigationItem>, ids: set<int>, parent: int,
                                                  i: nat, j: nat)
    requires i < j < |items|
    requires HasParent(items[i], ids) && items[i].parentId.value == parent
    requires HasParent(items[j], ids) && items[j].parentId.value == parent
    ensures exists a, b :: (0 <= a < b < |ChildIds(items, ids, parent)|
      && ChildIds(items, ids, parent)[a] == items[i].id && ChildIds(items, ids, parent)[b] == items[j].id)
  {
    var prefix := items[..|items| - 1];
    var kids := ChildIds(items, ids, parent);
    assert forall k :: 0 <= k < |prefix| ==> prefix[k] == items[k];
    if j == |items| - 1 {
      ChildIdsMembers(prefix, ids, parent);
      assert items[i].id in ChildIds(prefix, ids, parent);
      var a :| 0 <= a < |ChildIds(prefix, ids, parent)| && ChildIds(prefix, ids, parent)[a] == items[i].id;
      assert kids[a] == items[i].id && kids[|ChildIds(prefix, ids, parent)|] == items[j].id;
    } else {
      ChildrenKeepInputOrder(prefix, ids, parent, i, j);
      var a, b :| 0 <= a < b < |ChildIds(prefix, ids, parent)|
        && ChildIds(prefix, ids, parent)[a] == items[i].id && ChildIds(prefix, ids, parent)[b] == items[j].id;
      assert kids[a] == items[i].id && kids[b] == items[j].id;
    }
  }

  /** The example of a dangling parent: items 1 (no parent), 2 (parent 1)
      and 3 (parent 99) give roots 1 and 3, and 2 under 1. */
  lemma DanglingParentBecomesRoot()
    ensures var items := [NavigationItem(1, "a", None, None, None, "en"),
                          NavigationItem(2, "b", None, None, Some(1), "en"),
                          NavigationItem(3, "c", None, None, Some(99), "en")];
      && RootIds(items, Ids(items)) == [1, 3]
      && ChildIds(items, Ids(items), 1) == [2]
  {
    var items := [NavigationItem(1, "a", None, None, None, "en"),
                  NavigationItem(2, "b", None, None, Some(1), "en"),
                  NavigationItem(3, "c", None, None, Some(99), "en")];
    var ids := Ids(items);
    assert items[0].id == 1;
    assert 1 in ids && 99 !in ids;
    assert items[..0] == [] && items[..3] == items;
    PlacementStep(items, ids, 0);
    PlacementStep(items, ids, 1);
    PlacementStep(items, ids, 2);
    assert ChildIds(items[..1], ids, 1) == [];
    assert ChildIds(items[..2], ids, 1) == [2];
  }

  /** Two items naming each other as parent: neither becomes a root, so both
      are unreachable from the roots, and building the tree still ends. */
  lemma ParentCycleIsUnreachable()
    ensures var items := [NavigationItem(1, "a", None, None, Some(2), "en"),
                          NavigationItem(2, "b", None, None, Some(1), "en")];
      && RootIds(items, Ids(items)) == []
      && ChildIds(items, Ids(items), 1) == [2]
      && ChildIds(items, Ids(items), 2) == [1]
  {
    var items := [NavigationItem(1, "a", None, None, Some(2), "en"),
                  NavigationItem(2, "b", None, None, Some(1), "en")];
    var ids := Ids(items);
    assert items[0].id == 1 && items[1].id == 2;
    assert 1 in ids && 2 in ids;
    assert items[..0] == [] && items[..2] == items;
    PlacementStep(items, ids, 0);
    PlacementStep(items, ids, 1);
    assert ChildIds(items[..1], ids, 1) == [] && ChildIds(items[..1], ids, 2) == [1];
  }
}
