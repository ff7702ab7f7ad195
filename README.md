# djangocms-navigation, modelled in Dafny

djangocms-navigation lets editors of a django CMS site build navigation menus as trees of menu items.
This project models the core of that package and proves properties of the model:

- **the changelist tree widget** (`navigation-tree-admin.js`). The admin table is a sequence of rows. Each row carries an element id, a node id, a parent id, a level, a children count, a toggle marker and a visible flag.
  - The recursive `collapse`, `expand`, `collapse_all` and `expand_all` walks are defined as the tables they leave (module `TreeRows`).
  - The sessionStorage expansion list is a map from key to a sequence of element ids (`TreeSession`).
  - The drag scan, the move request and the success patch use integer geometry (`TreeDrag`).
  - The event handlers are methods of one class, `TreeWidget.NavigationTree`. They run the walks with loops and are proved to reach the tables above.
- **the server-rendered markup the widget reads back** (`navigation_admin_tree.py`): the spacer width, the collapse marker and the expand-all header (`AdminTree`).
- **the breadcrumb tag** (`navigation_menu_tags.py`). It covers argument shifting, the home and selected search, the walk up the parent chain, the home append, the reversal and the start-level slice (`Breadcrumb`, over the parent-link chains of `ParentChains`).
- **the tree lookups of `helpers.py`**: the first descendant that links to a content object, the versioning filter for the site's menu content, and the nearest soft root (`NavigationHelpers`).
- **the menu of `cms_menus.py`**: the synthetic roots and item nodes built by `get_nodes`, and the subtree selection of `NavigationSelector.modify` with `make_roots`, which detaches parents in place (`NavigationMenus`).
- **the admin decisions of `admin.py`**: the guards of `move_node`, the three permission checks, the changelist columns and the edit-link visibility (`NavigationAdmin`).
- **the app-config extension of `cms_config.py`**: the registered model list and its two configuration errors (`NavigationConfig`).

The database, treebeard, versioning and version locking appear only as inputs. These include the rows a query returns, parent links as a sequence of indices, and the boolean answers of permission, lock and edit-redirect checks. Browser geometry appears as integer offsets. The confirm prompt and the server's answer to a move are inputs too.

Two behaviours of the widget's code are easy to misread, and the model keeps both as written:

- collapsing with toggle removes from the stored list only the row's own id and its direct children's ids, not all descendants (navigation-tree-admin.js:135-141);
- the move request's `parent_id` is the target's parent in both the child mode and the sibling mode (navigation-tree-admin.js:307).

## Model

| member | source | states |
|---|---|---|
| AdminTree.GetFieldName | djangocms_navigation/templatetags/navigation_admin_tree.py:42-45 | a callable column gives its `__name__`, any other column the value itself |
| AdminTree.NatToStringRoundTrip | djangocms_navigation/templatetags/navigation_admin_tree.py:93 | the decimal rendering of a depth reads back to the same number |
| AdminTree.SpacerStyleInjective | djangocms_navigation/templatetags/navigation_admin_tree.py:93 | two spacer styles are equal only for equal widths, so the style determines the indentation |
| AdminTree.GetSpacer | djangocms_navigation/templatetags/navigation_admin_tree.py:91-97 | the first column gets a spacer span of width depth - 1; every other column gets the empty string |
| AdminTree.RenderedMarker | djangocms_navigation/templatetags/navigation_admin_tree.py:103-115 | no toggle iff no children; collapsed iff children and depth > 1; expanded iff children and depth <= 1 |
| AdminTree.GetCollapse | djangocms_navigation/templatetags/navigation_admin_tree.py:103-115 | the collapsed link, the expanded link or the blank span, by the same three cases, and always the markup of RenderedMarker |
| AdminTree.ResultTree | djangocms_navigation/templatetags/navigation_admin_tree.py:123-138 | `filtered` iff the GET dict is not empty; the expand-all header sits at index 1 with checkboxes and at index 0 without; removing it gives back the other headers in order |
| TreeRows.CollapseRows | djangocms_navigation/static/djangocms_navigation/js/navigation-tree-admin.js:72-78 | collapse() hides exactly the rows its child walk reaches from the node and changes no marker and no other attribute |
| TreeRows.ExpandRows | djangocms_navigation/static/djangocms_navigation/js/navigation-tree-admin.js:79-89 | expand() shows exactly the rows reached through children marked expanded and changes no marker |
| TreeRows.CollapseAllRows | djangocms_navigation/static/djangocms_navigation/js/navigation-tree-admin.js:92-100 | collapse_all() hides every row below the node and forces the collapsed marker on the row itself and on every row below it |
| TreeRows.ExpandAllRows | djangocms_navigation/static/djangocms_navigation/js/navigation-tree-admin.js:101-109 | expand_all() shows every row below the node and forces the expanded marker on the row itself and on every row below it |
| TreeRows.RevealedIsBelow | djangocms_navigation/static/djangocms_navigation/js/navigation-tree-admin.js:79-89 | every row expand() reaches is also reached by collapse() |
| TreeRows.CollapseThenExpand | djangocms_navigation/static/djangocms_navigation/js/navigation-tree-admin.js:72-89 | collapse() then expand() on a node: below it, exactly the rows reachable through expanded markers are visible; every other row and every marker is unchanged |
| TreeRows.CollapseAllAfterExpandAll | djangocms_navigation/static/djangocms_navigation/js/navigation-tree-admin.js:92-109 | collapse_all() after expand_all() leaves the same table as collapse_all() alone |
| TreeRows.NodeIndex | djangocms_navigation/static/djangocms_navigation/js/navigation-tree-admin.js:68-71 | the parent row has that node id and no earlier row does; None only if no row has it |
| TreeRows.BelowIsSubtree | djangocms_navigation/static/djangocms_navigation/js/navigation-tree-admin.js:65-78 | with unique node ids, the downward child walk reaches a row iff the node lies on that row's chain of parent rows |
| TreeRows.RenderedTableConsistent | djangocms_navigation/templatetags/navigation_admin_tree.py:91-115 | a table rendered with get_spacer and get_collapse from items with distinct ids has unique node ids, a spacer of level - 1, and a toggle exactly on rows with children |
| TreeRows.WalksKeepConsistent | djangocms_navigation/static/djangocms_navigation/js/navigation-tree-admin.js:72-89 | collapse() and expand() keep that invariant |
| TreeRows.AllWalksKeepConsistent | djangocms_navigation/static/djangocms_navigation/js/navigation-tree-admin.js:92-109 | collapse_all() and expand_all() keep that invariant |
| TreeSession.Omit | djangocms_navigation/static/djangocms_navigation/js/navigation-tree-admin.js:135 | the filtered list holds exactly the ids of the old one that are not dropped, and is no longer than it |
| TreeSession.OmitTwice | djangocms_navigation/static/djangocms_navigation/js/navigation-tree-admin.js:133-141 | filtering by one set and then another equals filtering once by their union |
| TreeSession.SessionAfterAdd | djangocms_navigation/static/djangocms_navigation/js/navigation-tree-admin.js:126-131 | add_to_session appends the id at the end, even when it is already present, and leaves every other key alone |
| TreeSession.SessionAfterRemove | djangocms_navigation/static/djangocms_navigation/js/navigation-tree-admin.js:132-144 | remove_from_session drops the row's own id and, when children-num > 0, its direct children's ids; it keeps every other stored id and every other key |
| TreeSession.GrandchildSurvivesRemove | djangocms_navigation/static/djangocms_navigation/js/navigation-tree-admin.js:137-141 | a stored grandchild id stays stored when its grandparent is removed |
| TreeSession.FindElem | djangocms_navigation/static/djangocms_navigation/js/navigation-tree-admin.js:155 | the row found has the element id; None only if no row has it |
| TreeSession.RestoreOne | djangocms_navigation/static/djangocms_navigation/js/navigation-tree-admin.js:154-158 | one replayed id changes only visibility and markers |
| TreeSession.RestoreAll | djangocms_navigation/static/djangocms_navigation/js/navigation-tree-admin.js:150-159 | replaying the stored list in order changes only visibility and markers |
| TreeSession.RestoreOnlyShows | djangocms_navigation/static/djangocms_navigation/js/navigation-tree-admin.js:150-159 | the replay never hides a row |
| TreeSession.RestoreOpensListedRows | djangocms_navigation/static/djangocms_navigation/js/navigation-tree-admin.js:150-159 | after the replay, every listed row that exists shows all its direct children, and its marker is forced to expanded |
| TreeSession.RestoreMarkerUnchanged | djangocms_navigation/static/djangocms_navigation/js/navigation-tree-admin.js:150-159 | the replay leaves each marker unchanged or forces it to expanded, nothing else |
| TreeDrag.ScanStep | djangocms_navigation/static/djangocms_navigation/js/navigation-tree-admin.js:245-290 | one row of the mousemove scan changes only visibility |
| TreeDrag.ScanUpTo | djangocms_navigation/static/djangocms_navigation/js/navigation-tree-admin.js:235-291 | the whole scan changes no marker and no other attribute of any row |
| TreeDrag.ScanOnOwnBand | djangocms_navigation/static/djangocms_navigation/js/navigation-tree-admin.js:247-256 | with the pointer over the dragged row, the target becomes null; the mode and the rows are unchanged |
| TreeDrag.ScanLastHitWins | djangocms_navigation/static/djangocms_navigation/js/navigation-tree-admin.js:235-291 | off the dragged row, the last hit row wins: as sibling on its upper half (midpoint included), as child on its lower half. With no hit, target and mode keep their previous values |
| TreeDrag.ScanOnlyShows | djangocms_navigation/static/djangocms_navigation/js/navigation-tree-admin.js:272-279 | the scan never hides a row |
| TreeDrag.ExpandShowsChildren | djangocms_navigation/static/djangocms_navigation/js/navigation-tree-admin.js:79-89 | expand() on a row shows each of its direct children |
| TreeDrag.ChildHoverOpensTarget | djangocms_navigation/static/djangocms_navigation/js/navigation-tree-admin.js:272-279 | hovering the lower half of a collapsed row leaves its children visible when the scan ends |
| TreeDrag.ReleaseRequest | djangocms_navigation/static/djangocms_navigation/js/navigation-tree-admin.js:292-310 | a request is sent iff there is a target, the prompt was confirmed and the target is another node. Its payload is the dragged node, the target's parent, the target node, and 1 or 0 for the mode |
| TreeDrag.ReleaseNeverSelf | djangocms_navigation/static/djangocms_navigation/js/navigation-tree-admin.js:296-298 | a sent request never names the dragged node as its sibling, and its target is another row |
| TreeDrag.MovePlacesRow | djangocms_navigation/static/djangocms_navigation/js/navigation-tree-admin.js:311-328 | the moved row gets the target's level (+1 as child), the target's id (child) or parent (sibling) as parent, and a spacer of level - 1. It sits right after (child) or right before (sibling) the target. Every other row keeps its attributes and relative order |
| TreeDrag.MoveSpacerMatchesServer | djangocms_navigation/static/djangocms_navigation/js/navigation-tree-admin.js:321 | the patched spacer is the span get_spacer renders for the new level |
| TreeDrag.MoveKeepsConsistent | djangocms_navigation/static/djangocms_navigation/js/navigation-tree-admin.js:311-328 | the success patch keeps the rendered table's invariant |
| TreeWidget.ToggleRows | djangocms_navigation/static/djangocms_navigation/js/navigation-tree-admin.js:111-122 | toggle() flips collapsed to expanded and expanded to collapsed on the row itself; it changes no other marker and no attribute other than visibility |
| TreeWidget.FirstAtLevel | djangocms_navigation/static/djangocms_navigation/js/navigation-tree-admin.js:405 | the root row is the first row at level 1; None only if there is none |
| TreeWidget.NavigationTree.constructor | djangocms_navigation/static/djangocms_navigation/js/navigation-tree-admin.js:148-197 | page load replays the stored list (an absent entry does nothing) before the has-filters check. The click handlers are bound only without filters, the drag handler only without filters and with drag and drop enabled |
| TreeWidget.NavigationTree.Restore | djangocms_navigation/static/djangocms_navigation/js/navigation-tree-admin.js:154-158 | the handler for one stored id reaches RestoreOne's table |
| TreeWidget.NavigationTree.Collapse | djangocms_navigation/static/djangocms_navigation/js/navigation-tree-admin.js:72-78 | the child loop with its recursive calls reaches CollapseRows' table |
| TreeWidget.NavigationTree.Expand | djangocms_navigation/static/djangocms_navigation/js/navigation-tree-admin.js:79-89 | the child loop with its recursive calls reaches ExpandRows' table |
| TreeWidget.NavigationTree.CollapseAll | djangocms_navigation/static/djangocms_navigation/js/navigation-tree-admin.js:92-100 | reaches CollapseAllRows' table and clears the whole storage |
| TreeWidget.NavigationTree.ExpandAll | djangocms_navigation/static/djangocms_navigation/js/navigation-tree-admin.js:101-109 | reaches ExpandAllRows' table and clears the whole storage |
| TreeWidget.NavigationTree.AddToSession | djangocms_navigation/static/djangocms_navigation/js/navigation-tree-admin.js:126-131 | the read-modify-write on the stored list gives SessionAfterAdd |
| TreeWidget.NavigationTree.RemoveFromSession | djangocms_navigation/static/djangocms_navigation/js/navigation-tree-admin.js:132-144 | the successive filters over the children give SessionAfterRemove |
| TreeWidget.NavigationTree.Toggle | djangocms_navigation/static/djangocms_navigation/js/navigation-tree-admin.js:111-122 | reaches ToggleRows' table and stores by adding when opening and by removing when closing |
| TreeWidget.NavigationTree.ClickToggle | djangocms_navigation/static/djangocms_navigation/js/navigation-tree-admin.js:396-400 | a click on a row's toggle link toggles that row when the handlers are bound, otherwise nothing changes |
| TreeWidget.NavigationTree.ClickExpandAll | djangocms_navigation/static/djangocms_navigation/js/navigation-tree-admin.js:402-415 | with no class or `collapsed-all`: expand_all from the first level-1 row, class `expanded-all`, label `-`. Otherwise: collapse_all, class `collapsed-all`, label `+` |
| TreeWidget.NavigationTree.MouseDown | djangocms_navigation/static/djangocms_navigation/js/navigation-tree-admin.js:200-221 | starting a drag records the dragged row and resets target and mode to null and false |
| TreeWidget.NavigationTree.MouseMove | djangocms_navigation/static/djangocms_navigation/js/navigation-tree-admin.js:224-291 | the per-row loop over the table reaches ScanUpTo's hover and rows |
| TreeWidget.NavigationTree.MouseUp | djangocms_navigation/static/djangocms_navigation/js/navigation-tree-admin.js:292-386 | the confirm prompt is always shown and the request is ReleaseRequest. The table is patched only when a request was sent and succeeded, and the drag ends in every case |
| TreeWidget.NavigationTree.KeyUp | djangocms_navigation/static/djangocms_navigation/js/navigation-tree-admin.js:387-392 | escape (key code 27) ends the drag; any other key changes nothing |
| TreeWidget.ToggleOpens | djangocms_navigation/static/djangocms_navigation/js/navigation-tree-admin.js:111-116 | opening a collapsed row marks it expanded, shows its direct children and appends its id to the stored list |
| TreeWidget.ToggleClosesDescendants | djangocms_navigation/static/djangocms_navigation/js/navigation-tree-admin.js:117-121 | closing a row hides exactly the rows whose parent chain reaches it, leaves all other visibility alone, closes its marker and removes its id from the list |
| TreeWidget.ToggleOpenThenClose | djangocms_navigation/static/djangocms_navigation/js/navigation-tree-admin.js:111-144 | opening then closing a row restores its marker. The stored list equals the old list with the removed ids filtered out |
| TreeWidget.ToggleKeepsConsistent | djangocms_navigation/static/djangocms_navigation/js/navigation-tree-admin.js:111-122 | toggle() keeps the rendered table's invariant |
| TreeWidget.ExpandAllLinkAlternates | djangocms_navigation/static/djangocms_navigation/js/navigation-tree-admin.js:408-414 | a click that expanded all makes the next click collapse all, and the other way round |
| ParentChains.ChainEndsAtTop | djangocms_navigation/templatetags/navigation_menu_tags.py:72-76 | a parent walk that ends stops exactly at a node without a parent |
| Breadcrumb.ParseInt | djangocms_navigation/templatetags/navigation_menu_tags.py:48 | `int()` of a digit string is its number; the empty string and strings without a digit are ValueError |
| Breadcrumb.Shift | djangocms_navigation/templatetags/navigation_menu_tags.py:43-46 | arguments stay in place iff the start level is an int or a digit string. Otherwise they move one place right and the start level becomes 0 |
| Breadcrumb.OnlyVisible | djangocms_navigation/templatetags/navigation_menu_tags.py:47-50 | `bool(int(x))` when x parses as an int, otherwise `bool(x)`; None is a TypeError |
| Breadcrumb.WordIsTrue | djangocms_navigation/templatetags/navigation_menu_tags.py:47-50 | a non-empty text without digits counts as true |
| Breadcrumb.ShiftedTemplateArgument | djangocms_navigation/templatetags/navigation_menu_tags.py:43-50 | a template path given first moves into place, only_visible receives the default template path and stays true, and the start level is 0 |
| Breadcrumb.FirstFrom | djangocms_navigation/templatetags/navigation_menu_tags.py:60-69 | home and selected are the first flagged node; None only if no node is flagged |
| Breadcrumb.Collect | djangocms_navigation/templatetags/navigation_menu_tags.py:70-76 | the walk collects only existing nodes, and the selected node first when it passes the visibility rule |
| Breadcrumb.CollectMembers | djangocms_navigation/templatetags/navigation_menu_tags.py:70-76 | a node is collected iff it lies on the selected node's parent chain and has visible content, or invisible nodes are wanted |
| Breadcrumb.AppendHome | djangocms_navigation/templatetags/navigation_menu_tags.py:77-78 | home (even None) is appended when nothing was collected. An existing home ends the list but is not appended again when the walk already ends at it, and a missing one changes a non-empty list in no way |
| Breadcrumb.Reverse | djangocms_navigation/templatetags/navigation_menu_tags.py:79 | entry k of the reversed list is entry n-1-k of the old one |
| Breadcrumb.DropLevels | djangocms_navigation/templatetags/navigation_menu_tags.py:80-83 | the first start_level entries are dropped, the result is empty past the end, and a negative level counts from the end |
| Breadcrumb.Breadcrumb | djangocms_navigation/templatetags/navigation_menu_tags.py:37-86 | without a request only the fallback template; a None start level raises; a rendered result carries the shifted template |
| Breadcrumb.FindHome | djangocms_navigation/templatetags/navigation_menu_tags.py:60-65 | the for/break loop finds the first home page node, or none when there is none |
| Breadcrumb.WalkUp | djangocms_navigation/templatetags/navigation_menu_tags.py:70-76 | the while loop up the parent links yields Collect's list |
| Breadcrumb.ReverseList | djangocms_navigation/templatetags/navigation_menu_tags.py:79 | the in-place reversal yields Reverse's list |
| Breadcrumb.GetContext | djangocms_navigation/templatetags/navigation_menu_tags.py:37-86 | the tag's steps, with the corrected start level of the finding below, yield BreadcrumbFixed's outcome |
| Breadcrumb.HomeComesFirst | djangocms_navigation/templatetags/navigation_menu_tags.py:77-79 | whenever a home node exists it heads the unsliced breadcrumb |
| Breadcrumb.SelectedComesLast | djangocms_navigation/templatetags/navigation_menu_tags.py:70-79 | a selected node that is not home and passes the visibility rule ends the unsliced breadcrumb |
| Breadcrumb.AncestorMembers | djangocms_navigation/templatetags/navigation_menu_tags.py:60-79 | with a home node, the breadcrumb holds home and exactly the kept nodes of the selected node's chain; with home selected, only home |
| Breadcrumb.NoHomeNothingCollected | djangocms_navigation/templatetags/navigation_menu_tags.py:77-78 | with no home and no selected node, the breadcrumb is the single entry None |
| Breadcrumb.StartLevelDropsFromRoot | djangocms_navigation/templatetags/navigation_menu_tags.py:80-83 | each extra start level drops one more entry from the root end |
| Breadcrumb.DigitStartLevelRaises | djangocms_navigation/templatetags/navigation_menu_tags.py:43-81 | the start level "1" passes the guard and then raises TypeError, where the number 1 renders |
| Breadcrumb.FixedDigitStartLevel | djangocms_navigation/templatetags/navigation_menu_tags.py:80-81 | with the correction, a digit-string start level behaves exactly like its number |
| Breadcrumb.FixedAgreesElsewhere | djangocms_navigation/templatetags/navigation_menu_tags.py:43-83 | the correction changes the outcome of no other argument |
| Breadcrumb.FixedNeverRaisesOnLevel | djangocms_navigation/templatetags/navigation_menu_tags.py:43-83 | with the correction, a request with a readable only_visible always renders |
| NavigationHelpers.FirstRootFrom | djangocms_navigation/helpers.py:24 | the root is the first root item of the menu content; None only if there is none |
| NavigationHelpers.FirstMatchFrom | djangocms_navigation/helpers.py:27-28 | the first item in tree order strictly below the root that links to the content object; None only if there is none |
| NavigationHelpers.NodeForContentObject | djangocms_navigation/helpers.py:14-32 | False (None) without a root. A found item links to the object and lies strictly below the menu's root |
| NavigationHelpers.NodeForContentObjectIsFirst | djangocms_navigation/helpers.py:26-30 | every matching item below the root makes the lookup succeed with that item or an earlier one |
| NavigationHelpers.RootIsNeverFound | djangocms_navigation/helpers.py:27 | the root itself is never returned, even when it links to the object |
| NavigationHelpers.SiteMenuContentFilter | djangocms_navigation/helpers.py:35-51 | no query iff the content is not versionable. Drafts iff the toolbar is in edit mode, published otherwise; always the request's language and the current site |
| NavigationHelpers.RootNodeFrom | djangocms_navigation/helpers.py:54-63 | the result is the node or one of its ancestors. It is the node itself when the node has no parent or its parent is the menu root |
| NavigationHelpers.RootNodeStops | djangocms_navigation/helpers.py:59-63 | the walk stops at a node that has no parent, whose parent is the menu root, or that is a soft root |
| NavigationHelpers.RootNodeIsNearest | djangocms_navigation/helpers.py:59-62 | every node passed before the result has a parent other than the menu root and is not a soft root |
| NavigationHelpers.RootNodeWithoutSoftRoots | djangocms_navigation/helpers.py:59-63 | without soft roots on the way, the result is the ancestor directly below the menu root, or a top node |
| NavigationHelpers.GetRootNode | djangocms_navigation/helpers.py:54-63 | the while loop on the node cursor yields RootNodeFrom's node |
| NavigationMenus.FirstWithId | djangocms_navigation/cms_menus.py:67 | `next()` finds the first node with the id; None (StopIteration) only if no node has it |
| NavigationMenus.TreeId | djangocms_navigation/cms_menus.py:62-66 | a non-empty namespace is the tree id, else the first node's id; it fails (IndexError) iff there is neither |
| NavigationMenus.MakeRoots | djangocms_navigation/cms_menus.py:70-74 | the node's parent becomes None exactly when it is the previous root; the same node is returned |
| NavigationMenus.SelectTree | djangocms_navigation/cms_menus.py:62-67 | IndexError iff there is no tree id, StopIteration iff no node carries it, otherwise the first node that does |
| NavigationMenus.Modify | djangocms_navigation/cms_menus.py:59-68 | with post_cut or root_id, the nodes pass through. Otherwise the errors above, or the selected node's children in order, each detached from it, with no other node changed |
| NavigationMenus.RootIds | djangocms_navigation/cms_menus.py:37-44 | `root_nodes` has a key for exactly each navigation's pk |
| NavigationMenus.ItemRecord | djangocms_navigation/cms_menus.py:20-33 | an item fails iff it has no parent and its menu has no root, or it has no content. The first case is KeyError, checked first; the second is AttributeError. Otherwise its node carries its pk, title, content URL and link target, and hangs under its parent or its menu's synthetic root |
| NavigationMenus.ItemRecords | djangocms_navigation/cms_menus.py:20-33 | the list has one node per item in order; it fails iff some item fails |
| NavigationMenus.RootRecords | djangocms_navigation/cms_menus.py:38-43 | one synthetic root per navigation, in query order |
| NavigationMenus.GetNodes | djangocms_navigation/cms_menus.py:35-48 | the two loops yield the synthetic roots, with ids `root-<identifier>` and empty title and URL, followed by one node per item |
| NavigationMenus.ItemErrorPropagates | djangocms_navigation/cms_menus.py:20-33 | the first item that fails decides the error of the whole list |
| NavigationMenus.ItemsAllRecorded | djangocms_navigation/cms_menus.py:20-33 | when every item succeeds, the list is exactly their nodes |
| NavigationMenus.TopItemsHangUnderRoots | djangocms_navigation/cms_menus.py:22-26 | every parentless item hangs under the synthetic root of a navigation whose pk is its menu content id |
| NavigationMenus.RootIdsNamesALastNavigation | djangocms_navigation/cms_menus.py:39-44 | each key of `root_nodes` names the synthetic root of a navigation with that pk, and no later navigation has that pk |
| NavigationAdmin.LockMessage | djangocms_navigation/admin.py:36-45 | the lock wording with version locking installed, the plain permission wording without it |
| NavigationAdmin.HasAddPermission | djangocms_navigation/admin.py:516-519 | never without a menu content id on the request, otherwise the superclass's answer |
| NavigationAdmin.HasChangePermission | djangocms_navigation/admin.py:521-530 | never without a menu content id, and never for an object locked for the user while locking is installed; otherwise the superclass's answer |
| NavigationAdmin.HasViewPermission | djangocms_navigation/admin.py:532-535 | never without a menu content id, otherwise the superclass's change permission |
| NavigationAdmin.ViewIsChangeWithoutLock | djangocms_navigation/admin.py:521-535 | view and change agree unless a locked object is involved, and whatever may be changed may be viewed |
| NavigationAdmin.MoveNodeResponse | djangocms_navigation/admin.py:488-514 | with versioning: 404 iff the content is missing, then 400 with the lock message, then 400 with the check_modify error. After these, parent "0" gives 400; the move is delegated iff no guard refuses |
| NavigationAdmin.VersioningGuardsComeFirst | djangocms_navigation/admin.py:490-514 | once a versioning guard refuses, the posted parent id plays no part and nothing is moved |
| NavigationAdmin.LockedContentIsNeverMoved | djangocms_navigation/admin.py:495-499 | content locked for the user gets the lock message whatever the superclass would allow |
| NavigationAdmin.MoveNode | djangocms_navigation/admin.py:488-514 | the answer is MoveNodeResponse with the permission asked after the id is stored on the request; each 400 also queues its message |
| NavigationAdmin.GetListDisplay | djangocms_navigation/admin.py:141-157 | title first. With versioning: author, modified date and state, `is_locked` iff locking is installed, actions last. Without versioning: the menu item and preview links. No column twice |
| NavigationAdmin.GetEditLink | djangocms_navigation/admin.py:182-208 | hidden iff the version is neither draft nor published; otherwise disabled iff asked to be or the edit redirect is refused |
| NavigationAdmin.EditLinkVisibilityIsByState | djangocms_navigation/admin.py:193-198 | visibility depends on the state alone: hidden exactly for unpublished and archived versions |
| NavigationConfig.Configure | djangocms_navigation/cms_config.py:13-23 | a missing attribute and a non-iterable value are refused with their own messages. An iterable is appended after the registered models, in order |
| NavigationConfig.ConfigureAllAppends | djangocms_navigation/cms_config.py:13-23 | after any run of calls, the list is the start list followed by the accepted configs' models, in call order |
| NavigationConfig.NavigationCMSExtension.constructor | djangocms_navigation/cms_config.py:10-11 | a fresh extension has nothing registered |
| NavigationConfig.NavigationCMSExtension.ConfigureApp | djangocms_navigation/cms_config.py:13-23 | the in-place extend yields Configure's list; on either error the list is unchanged |

## Left out

- Presentation is not modelled:
  - the ghost row and the drag line;
  - the tooltip texts;
  - the row highlight colour;
  - the `disableSelection` polyfill;
  - the hash-fragment highlight and its colour animation.

  None of these changes rows, storage or requests. The animation is floating-point arithmetic.
- CSRF handling and the message fetch after a move are not modelled. They are network and timer plumbing, and the server's answer to a move is an input.
- The success handler reads the target and the mode when the response arrives. The model patches with the values captured at release, because the race between the response and later drags is concurrency.
- Each drag binds a keyup handler that is never unbound. The model keeps only the handler's effect, because the leak is event plumbing.
- Row offsets are a snapshot taken when a mousemove event fires. The model does not capture how the layout shifts after a hover expands a row, because that is browser layout.
- TreeRows.CollapseRows: the walks take a depth bound, and the entry points pass the number of rows. This is exact for a table whose parent attributes form a tree. The script recurses forever on cyclic parent attributes, and the model does not capture that.
- Breadcrumb.Collect: the parent walk takes a fuel bound of the number of nodes, and the nodes' parent links are required to form a forest. The tag's own loop would not end on a cyclic menu.
- NavigationHelpers.GetRootNode: it requires the items to form a forest, for the same reason.
- Breadcrumb.ParseInt: it reads ASCII digits only. Python's `isdigit` and `int` accept other Unicode digits, whitespace and underscores.
- Breadcrumb.Breadcrumb: the argument values are modelled as int, bool, string or None. Any other object type is left out.
- The menu renderer and the node list it returns are inputs. Nodes are given as a sequence with separate parent links.
- The menu item querysets of cms_menus.py are inputs: `get_roots`, `get_menu_nodes` and the node's `get_absolute_url`. The URL is modelled as present or absent.
- `get_result_and_row_class` in navigation_admin_tree.py is not modelled. It wraps Django admin's field lookup and display helpers.
- The rest of admin.py is not modelled, because it is Django framework glue:
  - the URL patterns;
  - the change, add, changelist and preview views;
  - template rendering;
  - `proxy_model`.
- The query side of the admin checks is not modelled:
  - what the superclass permission checks answer;
  - whether content is unlocked for a user;
  - `check_modify` and the edit-redirect check;
  - `get_object_or_404`.

  Each is an input.
- cms_config.py imports `Iterable` from `collections`, which newer Python versions no longer provide. The model treats the Iterable check as answered.
- A registered navigation model is represented by its name.

## Findings

| source | as written | input that shows it | evidently intended | confidence | as-written member | corrected member |
|---|---|---|---|---|---|---|
| djangocms_navigation/templatetags/navigation_menu_tags.py:43-81 | The guard lets a digit-string start level through unconverted, and `len(ancestors) >= start_level` then compares an int with a str | `{% navigation_breadcrumb "1" %}` with a request: TypeError, where the number 1 renders | a digit string is read as its number, so "1" drops the home entry like 1 does | not executed | Breadcrumb.DigitStartLevelRaises | Breadcrumb.FixedDigitStartLevel |
