/**
 * djangocms_navigation/cms_menus.py: the menu that feeds the django CMS menu
 * system (CMSMenu.get_nodes) and the modifier that keeps only the subtree of
 * the requested navigation (NavigationSelector).
 *
 * The menu system's nodes are objects whose `parent` the selector detaches in
 * place, so they are a class here. The nodes get_nodes builds are fresh
 * values, so they are a datatype.
 */
module NavigationMenus {
  import opened Wrappers

  /** Node ids: the synthetic roots carry "root-<identifier>", item nodes their primary key. */
  datatype NavId = StrId(s: string) | IntId(pk: nat)

  datatype MenuError = IndexError | StopIteration | KeyError | AttributeError

  // ---------------------------------------------------------------- NavigationSelector

  /** A menu node as the menu system links it: its id and children are fixed, its parent may be cut. */
  class NavNode {
    const id: NavId
    const children: seq<NavNode>
    var parent: NavNode?

    constructor (id: NavId, children: seq<NavNode>, parent: NavNode?)
      ensures this.id == id && this.children == children && this.parent == parent
    {
      this.id := id;
      this.children := children;
      this.parent := parent;
    }
  }

  /** `next(n for n in nodes if n.id == tree_id)`, from index i on; None is StopIteration. */
  function FirstWithId(nodes: seq<NavNode>, id: NavId, i: nat): (r: Option<nat>)
    requires i <= |nodes|
    ensures r.Some? ==> i <= r.value < |nodes| && nodes[r.value].id == id
    ensures r.Some? ==> forall k :: i <= k < r.value ==> nodes[k].id != id
    ensures r.None? ==> forall k :: i <= k < |nodes| ==> nodes[k].id != id
    decreases |nodes| - i
  {
    if i == |nodes| then None
    else if nodes[i].id == id then Some(i)
    else FirstWithId(nodes, id, i + 1)
  }

  /** The tree to keep: the namespace when one is given (an empty one counts as none), else the first node's id; None is the IndexError of `nodes[0]`. */
  function TreeId(nodes: seq<NavNode>, namespace: Option<string>): (r: Option<NavId>)
    ensures namespace.Some? && namespace.value != "" ==> r == Some(StrId(namespace.value))
    ensures (namespace.None? || namespace.value == "") && |nodes| > 0 ==> r == Some(nodes[0].id)
    ensures r.None? <==> (namespace.None? || namespace.value == "") && |nodes| == 0
  {
    if namespace.Some? && namespace.value != "" then Some(StrId(namespace.value))
    else if |nodes| > 0 then Some(nodes[0].id)
    else None
  }

  /** Every node that can be the parent-bearing child of some listed node. */
  function ChildrenOf(nodes: seq<NavNode>): set<NavNode>
  {
    set n, c | n in nodes && c in n.children :: c
  }

  /** make_roots: detach a level-one node from the root it hangs under. */
  method MakeRoots(node: NavNode, previousRoot: NavNode) returns (r: NavNode)
    modifies node
    ensures r == node
    ensures node.parent == (if old(node.parent) == previousRoot then null else old(node.parent))
  {
    if node.parent == previousRoot {
      node.parent := null;
    }
    return node;
  }

  /** The node whose children modify returns, or the error raised looking for it. */
  function SelectTree(nodes: seq<NavNode>, namespace: Option<string>): (r: Result<nat>)
    ensures r == Err(IndexError) <==> TreeId(nodes, namespace).None?
    ensures r == Err(StopIteration) <==>
      TreeId(nodes, namespace).Some? && FirstWithId(nodes, TreeId(nodes, namespace).value, 0).None?
    ensures r.Ok? ==> r.value < |nodes| && Some(nodes[r.value].id) == TreeId(nodes, namespace)
    ensures r.Ok? ==> forall k :: 0 <= k < r.value ==> nodes[k].id != nodes[r.value].id
  {
    match TreeId(nodes, namespace)
    case None => Err(IndexError)
    case Some(id) =>
      match FirstWithId(nodes, id, 0)
      case None => Err(StopIteration)
      case Some(k) => Ok(k)
  }

  /**
   * NavigationSelector.modify. With post_cut or root_id set, the nodes pass
   * through untouched. Otherwise the result is the children of the first node
   * carrying the tree id, in order, each detached from that node; no other
   * node changes.
   */
  method Modify(nodes: seq<NavNode>, namespace: Option<string>, rootIdGiven: bool, postCut: bool)
      returns (r: Result<seq<NavNode>>)
    modifies ChildrenOf(nodes)
    ensures postCut || rootIdGiven ==>
      r == Ok(nodes) && forall c :: c in ChildrenOf(nodes) ==> c.parent == old(c.parent)
    ensures !(postCut || rootIdGiven) && SelectTree(nodes, namespace).Err? ==>
      r == Err(SelectTree(nodes, namespace).error) && forall c :: c in ChildrenOf(nodes) ==> c.parent == old(c.parent)
    ensures !(postCut || rootIdGiven) && SelectTree(nodes, namespace).Ok? ==>
      (var root := nodes[SelectTree(nodes, namespace).value];
       r == Ok(root.children) &&
       (forall c :: c in root.children ==> c.parent == (if old(c.parent) == root then null else old(c.parent))) &&
       (forall c :: c in ChildrenOf(nodes) && c !in root.children ==> c.parent == old(c.parent)))
  {
    if postCut || rootIdGiven {
      return Ok(nodes);
    }
    var treeId := TreeId(nodes, namespace);
    if treeId.None? {
      return Err(IndexError);
    }
    var found := FirstWithId(nodes, treeId.value, 0);
    if found.None? {
      return Err(StopIteration);
    }
    var root := nodes[found.value];
    assert root in nodes;
    var kept: seq<NavNode> := [];
    for i := 0 to |root.children|
      invariant kept == root.children[..i]
      invariant forall c :: c in root.children[..i] ==> c.parent == (if old(c.parent) == root then null else old(c.parent))
      invariant forall c :: c in ChildrenOf(nodes) && c !in root.children[..i] ==> c.parent == old(c.parent)
    {
      assert root.children[..i + 1] == root.children[..i] + [root.children[i]];
      assert root in nodes && root.children[i] in root.children;
      assert root.children[i] in ChildrenOf(nodes);
      var node := MakeRoots(root.children[i], root);
      kept := kept + [node];
    }
    assert root.children[..|root.children|] == root.children;
    return Ok(kept);
  }

  // ---------------------------------------------------------------- CMSMenu.get_nodes

  datatype Result<T> = Ok(value: T) | Err(error: MenuError)

  /** A navigation (Menu row) of the current site. */
  datatype Navigation = Navigation(pk: nat, identifier: string)

  /**
   * A menu item of those navigations, in (menu content, path) order: its key,
   * title and link target, its parent's key when it has a parent, the menu
   * content it belongs to, and the URL of its linked content (None when the
   * item links to nothing, as a menu's root item does).
   */
  datatype MenuItem = MenuItem(pk: nat, title: string, linkTarget: string, parentPk: Option<nat>,
                               menuContentId: nat, contentUrl: Option<string>)

  /** A NavigationNode as the menu builds it. */
  datatype NavRecord = NavRecord(title: string, url: string, id: NavId, parentId: Option<NavId>, attr: map<string, string>)

  function RootId(identifier: string): NavId
  {
    StrId("root-" + identifier)
  }

  /** The synthetic root of one navigation: empty title and URL, no parent, no attributes. */
  function RootRecord(nav: Navigation): NavRecord
  {
    NavRecord("", "", RootId(nav.identifier), None, map[])
  }

  /** The `root_nodes` dict after the loop over navigations: keyed by the navigation's pk, later entries overwriting earlier ones. */
  function RootIds(navs: seq<Navigation>): (m: map<nat, NavId>)
    ensures forall k :: k in m <==> exists i :: 0 <= i < |navs| && navs[i].pk == k
    decreases |navs|
  {
    if navs == [] then map[]
    else
      var last := navs[|navs| - 1];
      var m := RootIds(navs[..|navs| - 1]);
      assert forall i :: 0 <= i < |navs| - 1 ==> navs[..|navs| - 1][i] == navs[i];
      m[last.pk := RootId(last.identifier)]
  }

  /** One yielded node of get_navigation_nodes, or the error its construction raises. */
  function ItemRecord(item: MenuItem, roots: map<nat, NavId>): (r: Result<NavRecord>)
    ensures r.Err? <==> (item.parentPk.None? && item.menuContentId !in roots) || item.contentUrl.None?
    ensures item.parentPk.None? && item.menuContentId !in roots ==> r == Err(KeyError)
    ensures !(item.parentPk.None? && item.menuContentId !in roots) && item.contentUrl.None? ==> r == Err(AttributeError)
    ensures r.Ok? ==> r.value.url == item.contentUrl.value
    ensures r.Ok? ==> r.value.id == IntId(item.pk) && r.value.title == item.title &&
                      r.value.attr == map["link_target" := item.linkTarget]
    ensures r.Ok? && item.parentPk.Some? ==> r.value.parentId == Some(IntId(item.parentPk.value))
    ensures r.Ok? && item.parentPk.None? ==> r.value.parentId == Some(roots[item.menuContentId])
  {
    if item.parentPk.None? && item.menuContentId !in roots then Err(KeyError)
    else if item.contentUrl.None? then Err(AttributeError)
    else
      var parentId := if item.parentPk.Some? then IntId(item.parentPk.value) else roots[item.menuContentId];
      Ok(NavRecord(item.title, item.contentUrl.value, IntId(item.pk), Some(parentId), map["link_target" := item.linkTarget]))
  }

  /** get_navigation_nodes, consumed by list(): the records in item order, or the first error raised. */
  function ItemRecords(items: seq<MenuItem>, roots: map<nat, NavId>): (r: Result<seq<NavRecord>>)
    ensures r.Ok? ==> |r.value| == |items| &&
                      forall k :: 0 <= k < |items| ==> ItemRecord(items[k], roots) == Ok(r.value[k])
    ensures r.Err? <==> exists k :: 0 <= k < |items| && ItemRecord(items[k], roots).Err?
    decreases |items|
  {
    if items == [] then Ok([])
    else
      match ItemRecord(items[0], roots)
      case Err(e) => Err(e)
      case Ok(first) =>
        match ItemRecords(items[1..], roots)
        case Err(e) =>
          assert exists k :: 0 <= k < |items| - 1 && ItemRecord(items[1..][k], roots).Err?;
          Err(e)
        case Ok(rest) =>
          assert forall k :: 1 <= k < |items| ==> items[k] == items[1..][k - 1];
          Ok([first] + rest)
  }

  /** The synthetic roots, one per navigation in query order. */
  function RootRecords(navs: seq<Navigation>): (r: seq<NavRecord>)
    ensures |r| == |navs| && forall k :: 0 <= k < |navs| ==> r[k] == RootRecord(navs[k])
    decreases |navs|
  {
    if navs == [] then [] else RootRecords(navs[..|navs| - 1]) + [RootRecord(navs[|navs| - 1])]
  }

  /** The result get_nodes is specified by: the roots, then every item's node. */
  function MenuNodes(navs: seq<Navigation>, items: seq<MenuItem>): Result<seq<NavRecord>>
  {
    match ItemRecords(items, RootIds(navs))
    case Err(e) => Err(e)
    case Ok(recs) => Ok(RootRecords(navs) + recs)
  }

  /**
   * CMSMenu.get_nodes: the loop over navigations that creates the synthetic
   * roots and fills `root_nodes`, then the loop over the items.
   */
  method GetNodes(navs: seq<Navigation>, items: seq<MenuItem>) returns (r: Result<seq<NavRecord>>)
    ensures r == MenuNodes(navs, items)
    ensures r.Ok? ==> |r.value| == |navs| + |items|
    ensures r.Ok? ==> forall k :: 0 <= k < |navs| ==> r.value[k] == RootRecord(navs[k])
    ensures r.Ok? ==> forall k :: 0 <= k < |items| ==> r.value[|navs| + k].id == IntId(items[k].pk)
  {
    var rootNodes: map<nat, NavId> := map[];
    var rootRecords: seq<NavRecord> := [];
    for i := 0 to |navs|
      invariant rootNodes == RootIds(navs[..i])
      invariant rootRecords == RootRecords(navs[..i])
    {
      assert navs[..i + 1][..i] == navs[..i];
      rootRecords := rootRecords + [RootRecord(navs[i])];
      rootNodes := rootNodes[navs[i].pk := RootId(navs[i].identifier)];
    }
    assert navs[..|navs|] == navs;
    var recs: seq<NavRecord> := [];
    for j := 0 to |items|
      invariant |recs| == j && forall k :: 0 <= k < j ==> ItemRecord(items[k], rootNodes) == Ok(recs[k])
    {
      var rec := ItemRecord(items[j], rootNodes);
      if rec.Err? {
        ItemErrorPropagates(items, rootNodes, j);
        return Err(rec.error);
      }
      recs := recs + [rec.value];
    }
    ItemsAllRecorded(items, rootNodes, recs);
    return Ok(rootRecords + recs);
  }

  /** The first item whose node cannot be built decides the error of the whole list. */
  lemma {:induction false} ItemErrorPropagates(items: seq<MenuItem>, roots: map<nat, NavId>, j: nat)
    requires j < |items| && ItemRecord(items[j], roots).Err?
    requires forall k :: 0 <= k < j ==> ItemRecord(items[k], roots).Ok?
    ensures ItemRecords(items, roots) == Err(ItemRecord(items[j], roots).error)
    decreases j
  {
    if j > 0 {
      assert forall k :: 0 <= k < j - 1 ==> items[1..][k] == items[k + 1];
      ItemErrorPropagates(items[1..], roots, j - 1);
    }
  }

  /** When every item's node is built, the list holds exactly those nodes. */
  lemma ItemsAllRecorded(items: seq<MenuItem>, roots: map<nat, NavId>, recs: seq<NavRecord>)
    requires |recs| == |items| && forall k :: 0 <= k < |items| ==> ItemRecord(items[k], roots) == Ok(recs[k])
    ensures ItemRecords(items, roots) == Ok(recs)
  {
    var r := ItemRecords(items, roots);
    assert r.Ok?;
    assert r.value == recs;
  }

  /** Every item without a parent hangs under the synthetic root of the navigation whose pk equals its menu content id. */
  lemma TopItemsHangUnderRoots(navs: seq<Navigation>, items: seq<MenuItem>, k: nat)
    requires MenuNodes(navs, items).Ok? && k < |items| && items[k].parentPk.None?
    ensures exists i :: (0 <= i < |navs| && navs[i].pk == items[k].menuContentId &&
                         MenuNodes(navs, items).value[|navs| + k].parentId == Some(RootId(navs[i].identifier)))
  {
    RootIdsNamesALastNavigation(navs, items[k].menuContentId);
  }

  /** A key of root_nodes maps to the synthetic root id of the last navigation with that pk. */
  lemma {:induction false} RootIdsNamesALastNavigation(navs: seq<Navigation>, pk: nat)
    requires pk in RootIds(navs)
    ensures exists i :: (0 <= i < |navs| && navs[i].pk == pk && RootIds(navs)[pk] == RootId(navs[i].identifier) &&
                         forall j :: i < j < |navs| ==> navs[j].pk != pk)
    decreases |navs|
  {
    var last := navs[|navs| - 1];
    if last.pk != pk {
      var front := navs[..|navs| - 1];
      RootIdsNamesALastNavigation(front, pk);
      var i :| 0 <= i < |front| && front[i].pk == pk && RootIds(front)[pk] == RootId(front[i].identifier) &&
               forall j :: i < j < |front| ==> front[j].pk != pk;
      assert navs[i] == front[i];
      forall j | i < j < |navs|
        ensures navs[j].pk != pk
      {
        if j < |front| {
          assert navs[j] == front[j];
        }
      }
    } else {
      assert navs[|navs| - 1].pk == pk && RootIds(navs)[pk] == RootId(navs[|navs| - 1].identifier);
    }
  }
}
