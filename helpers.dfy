/**
 * The lookups of djangocms_navigation/helpers.py over the menu item tree.
 *
 * The items of all menus are given in tree (path) order, with their parent
 * links as a parallel sequence: `parents[k]` is the index of item k's parent,
 * None for a root item. A root item belongs to at most one menu content,
 * through the content's one-to-one `root` field. The database queries
 * become scans of this sequence; the versioning query of
 * get_site_menu_content is represented by the filter it is given.
 */
module NavigationHelpers {
  import opened Wrappers
  import opened ParentChains

  datatype VersionState = Draft | Published | Unpublished | Archived

  /** A menu item row: the menu content it is the root of, its generic content link, its soft-root flag. */
  datatype Item = Item(menuContent: Option<nat>, contentType: Option<nat>, objectId: Option<nat>, softRoot: bool)

  /** The items and their parent links describe one forest. */
  predicate Tree(items: seq<Item>, parents: Links)
  {
    |parents| == |items| && Forest(parents)
  }

  predicate IsRootOf(items: seq<Item>, parents: Links, k: nat, menuContent: nat)
    requires |parents| == |items| && k < |items|
  {
    parents[k].None? && items[k].menuContent == Some(menuContent)
  }

  /** `get_root_nodes().filter(menucontent=menu_content).first()`, scanning from index i. */
  function FirstRootFrom(items: seq<Item>, parents: Links, menuContent: nat, i: nat): (r: Option<nat>)
    requires |parents| == |items| && i <= |items|
    ensures r.Some? ==> i <= r.value < |items| && IsRootOf(items, parents, r.value, menuContent)
    ensures r.Some? ==> forall k :: i <= k < r.value ==> !IsRootOf(items, parents, k, menuContent)
    ensures r.None? ==> forall k :: i <= k < |items| ==> !IsRootOf(items, parents, k, menuContent)
    decreases |items| - i
  {
    if i == |items| then None
    else if IsRootOf(items, parents, i, menuContent) then Some(i)
    else FirstRootFrom(items, parents, menuContent, i + 1)
  }

  function MenuRoot(items: seq<Item>, parents: Links, menuContent: nat): Option<nat>
    requires |parents| == |items|
  {
    FirstRootFrom(items, parents, menuContent, 0)
  }

  /** k lies strictly below `root`: the root is on k's parent chain and is not k itself. */
  predicate ProperDescendant(parents: Links, k: nat, root: nat)
    requires InRange(parents) && k < |parents|
  {
    k != root && root in Chain(parents, k, |parents|)
  }

  /** The item links to the content object with that content type and primary key. */
  predicate LinksTo(it: Item, contentType: nat, objectId: nat)
  {
    it.contentType == Some(contentType) && it.objectId == Some(objectId)
  }

  /** `root.get_descendants().filter(content_type=..., object_id=...).first()`, scanning from index i in tree order. */
  function FirstMatchFrom(items: seq<Item>, parents: Links, root: nat, contentType: nat, objectId: nat, i: nat): (r: Option<nat>)
    requires |parents| == |items| && InRange(parents) && i <= |items|
    ensures r.Some? ==> i <= r.value < |items| && ProperDescendant(parents, r.value, root) &&
                        LinksTo(items[r.value], contentType, objectId)
    ensures r.Some? ==> forall k :: i <= k < r.value ==>
                        !(ProperDescendant(parents, k, root) && LinksTo(items[k], contentType, objectId))
    ensures r.None? ==> forall k :: i <= k < |items| ==>
                        !(ProperDescendant(parents, k, root) && LinksTo(items[k], contentType, objectId))
    decreases |items| - i
  {
    if i == |items| then None
    else if ProperDescendant(parents, i, root) && LinksTo(items[i], contentType, objectId) then Some(i)
    else FirstMatchFrom(items, parents, root, contentType, objectId, i + 1)
  }

  /**
   * get_navigation_node_for_content_object: the first item below the menu
   * content's root that links to the content object; None stands for the
   * False the function returns when there is no root or no such item.
   */
  function NodeForContentObject(items: seq<Item>, parents: Links, menuContent: nat, contentType: nat, objectId: nat): (r: Option<nat>)
    requires |parents| == |items| && InRange(parents)
    ensures MenuRoot(items, parents, menuContent).None? ==> r.None?
    ensures r.Some? ==> r.value < |items| && LinksTo(items[r.value], contentType, objectId) &&
                        ProperDescendant(parents, r.value, MenuRoot(items, parents, menuContent).value)
  {
    match MenuRoot(items, parents, menuContent)
    case None => None
    case Some(root) => FirstMatchFrom(items, parents, root, contentType, objectId, 0)
  }

  /** The item found is the first one in tree order: no earlier item below the root links to the object. */
  lemma NodeForContentObjectIsFirst(items: seq<Item>, parents: Links, menuContent: nat, contentType: nat, objectId: nat, k: nat)
    requires |parents| == |items| && InRange(parents) && k < |items|
    requires MenuRoot(items, parents, menuContent).Some?
    requires ProperDescendant(parents, k, MenuRoot(items, parents, menuContent).value) && LinksTo(items[k], contentType, objectId)
    ensures var r := NodeForContentObject(items, parents, menuContent, contentType, objectId); r.Some? && r.value <= k
  {
  }

  /** The menu root itself is never the answer, even when it links to the object. */
  lemma RootIsNeverFound(items: seq<Item>, parents: Links, menuContent: nat, contentType: nat, objectId: nat)
    requires |parents| == |items| && InRange(parents)
    ensures var r := NodeForContentObject(items, parents, menuContent, contentType, objectId);
      r.Some? ==> r != MenuRoot(items, parents, menuContent)
  {
  }

  /** The query get_site_menu_content hands to the versionable's distinct_groupers. */
  datatype GrouperFilter = GrouperFilter(states: seq<VersionState>, language: string, site: nat)

  /**
   * get_site_menu_content: no query (None) when the content model is not
   * versionable; otherwise drafts when the request has a toolbar in edit mode,
   * published versions in every other case, always in the request's language
   * and on the current site.
   */
  function SiteMenuContentFilter(versionable: bool, toolbarEditMode: Option<bool>, language: string, site: nat): (r: Option<GrouperFilter>)
    ensures r.None? <==> !versionable
    ensures r.Some? ==> r.value.language == language && r.value.site == site
    ensures r.Some? ==> (r.value.states == [Draft] <==> toolbarEditMode == Some(true))
    ensures r.Some? ==> (r.value.states == [Published] <==> toolbarEditMode != Some(true))
  {
    if !versionable then None
    else
      var states := if toolbarEditMode == Some(true) then [Draft] else [Published];
      Some(GrouperFilter(states, language, site))
  }

  // ---------------------------------------------------------------- get_root_node

  /** The loop of get_root_node as a recursion on the number of steps left. */
  function RootNodeFrom(items: seq<Item>, parents: Links, node: nat, root: Option<nat>, fuel: nat): (r: nat)
    requires |parents| == |items| && InRange(parents) && node < |items|
    ensures r < |items|
    ensures Ends(parents, node, fuel) ==> r in Chain(parents, node, fuel)
    ensures parents[node].None? || parents[node] == root ==> r == node
    decreases fuel
  {
    if fuel == 0 || parents[node].None? || parents[node] == root then node
    else if items[node].softRoot then node
    else RootNodeFrom(items, parents, parents[node].value, root, fuel - 1)
  }

  /**
   * Where the walk stops: at a node whose parent is missing or is the menu
   * root, or earlier at a soft root.
   */
  lemma {:induction false} RootNodeStops(items: seq<Item>, parents: Links, node: nat, root: Option<nat>, fuel: nat)
    requires |parents| == |items| && InRange(parents) && node < |items| && Ends(parents, node, fuel)
    ensures var r := RootNodeFrom(items, parents, node, root, fuel);
      parents[r].None? || parents[r] == root || items[r].softRoot
    decreases fuel
  {
    if !(parents[node].None? || parents[node] == root || items[node].softRoot) {
      RootNodeStops(items, parents, parents[node].value, root, fuel - 1);
    }
  }

  /**
   * The result is the nearest candidate: every node the walk passes before
   * reaching it has a parent other than the menu root and is not a soft root.
   */
  lemma {:induction false} RootNodeIsNearest(items: seq<Item>, parents: Links, node: nat, root: Option<nat>, fuel: nat, m: nat)
    requires |parents| == |items| && InRange(parents) && node < |items|
    requires m < |Chain(parents, node, fuel)|
    requires RootNodeFrom(items, parents, node, root, fuel) !in Chain(parents, node, fuel)[..m + 1]
    ensures var c := Chain(parents, node, fuel)[m];
      parents[c].Some? && parents[c] != root && !items[c].softRoot
    decreases fuel
  {
    var c := Chain(parents, node, fuel);
    assert c[..1] == [node];
    if m > 0 {
      var up := parents[node].value;
      assert c == [node] + Chain(parents, up, fuel - 1);
      assert c[..m + 1] == [node] + Chain(parents, up, fuel - 1)[..m];
      RootNodeIsNearest(items, parents, up, root, fuel - 1, m - 1);
    }
  }

  /** With no soft root on the way, the walk ends at the node directly below the menu root, or at a top node. */
  lemma {:induction false} RootNodeWithoutSoftRoots(items: seq<Item>, parents: Links, node: nat, root: Option<nat>, fuel: nat)
    requires |parents| == |items| && InRange(parents) && node < |items| && Ends(parents, node, fuel)
    requires forall k :: k in Chain(parents, node, fuel) ==> !items[k].softRoot
    ensures var r := RootNodeFrom(items, parents, node, root, fuel); parents[r].None? || parents[r] == root
  {
    RootNodeStops(items, parents, node, root, fuel);
  }

  /** get_root_node: the while loop that moves the `node` cursor to its parent. */
  method GetRootNode(items: seq<Item>, parents: Links, node: nat, menuContent: nat) returns (r: nat)
    requires Tree(items, parents) && node < |items|
    ensures r == RootNodeFrom(items, parents, node, MenuRoot(items, parents, menuContent), |items|)
  {
    var root := MenuRoot(items, parents, menuContent);
    ghost var fuel: nat := |items|;
    r := node;
    while parents[r].Some? && parents[r] != root
      invariant r < |items| && Ends(parents, r, fuel)
      invariant RootNodeFrom(items, parents, r, root, fuel) == RootNodeFrom(items, parents, node, root, |items|)
      decreases fuel
    {
      if items[r].softRoot {
        return;
      }
      r := parents[r].value;
      fuel := fuel - 1;
    }
  }
}
