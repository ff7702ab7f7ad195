/**
 * The rows of the navigation changelist as the tree widget script
 * (djangocms_navigation/static/djangocms_navigation/js/navigation-tree-admin.js)
 * sees them, and the recursive walks of its Node object: collapse(), expand(),
 * collapse_all() and expand_all(). Each walk is given here as the table it
 * leaves behind; TreeWidget runs the walks step by step and proves it reaches
 * these tables.
 */
module TreeRows {
  import opened Wrappers
  import opened AdminTree

  /** One `tr` of the changelist. */
  datatype Row = Row(
    elemId: string,     // the element's id attribute
    node: string,       // `node` attribute
    parent: string,     // `parent` attribute
    level: int,         // `level` attribute
    childrenNum: int,   // `children-num` attribute; never recomputed by the script
    marker: Marker,     // class of the row's toggle control
    visible: bool,      // shown or hidden
    spacer: string,     // style attribute of the row's span.spacer
    name: string)       // text of the row's title link

  /** A Node built from jQuery's empty selection reads its `node` attribute as
      undefined, which concatenates into the selector `tr[parent=undefined]`. */
  const UndefinedId := "undefined"

  /** Everything the walks leave alone: the row with its marker and visibility blanked. */
  function Shape(t: seq<Row>): (s: seq<Row>)
    ensures |s| == |t|
    ensures forall j :: 0 <= j < |t| ==> s[j] == t[j].(marker := NoToggle, visible := false)
  {
    seq(|t|, j requires 0 <= j < |t| => t[j].(marker := NoToggle, visible := false))
  }

  function Markers(t: seq<Row>): (m: seq<Marker>)
    ensures |m| == |t|
    ensures forall j :: 0 <= j < |t| ==> m[j] == t[j].marker
  {
    seq(|t|, j requires 0 <= j < |t| => t[j].marker)
  }

  /**
   * Row j is reached from node n by the child walk of collapse(), collapse_all()
   * and expand_all() within `depth` levels: it is a child of n (its `parent`
   * attribute is n) or it is reached from one of n's children.
   */
  predicate Below(s: seq<Row>, j: int, n: string, depth: nat)
    requires 0 <= j < |s|
    decreases depth
  {
    depth > 0 &&
    (s[j].parent == n ||
     exists i :: 0 <= i < |s| && s[i].parent == n && Below(s, j, s[i].node, depth - 1))
  }

  /** Row j is reached from node n by expand(), which only descends into children whose marker is expanded. */
  predicate Revealed(s: seq<Row>, m: seq<Marker>, j: int, n: string, depth: nat)
    requires 0 <= j < |s| == |m|
    decreases depth
  {
    depth > 0 &&
    (s[j].parent == n ||
     exists i :: 0 <= i < |s| && s[i].parent == n && m[i] == Expanded && Revealed(s, m, j, s[i].node, depth - 1))
  }

  /** removeClass/addClass on the row's `a.collapse`; a row without one keeps no marker. */
  function ForceMarker(m: Marker, to: Marker): Marker
  {
    if m == NoToggle then NoToggle else to
  }

  /** The table after collapse() on node n: every row below n hidden. */
  function CollapseRows(t: seq<Row>, n: string, depth: nat): (r: seq<Row>)
    ensures |r| == |t| && Shape(r) == Shape(t) && Markers(r) == Markers(t)
    ensures forall j :: 0 <= j < |t| ==> r[j] == t[j].(visible := t[j].visible && !Below(Shape(t), j, n, depth))
  {
    var r := seq(|t|, j requires 0 <= j < |t| => t[j].(visible := t[j].visible && !Below(Shape(t), j, n, depth)));
    assert Shape(r) == Shape(t);
    assert Markers(r) == Markers(t);
    r
  }

  /** The table after expand() on node n: every row n reveals is shown. */
  function ExpandRows(t: seq<Row>, n: string, depth: nat): (r: seq<Row>)
    ensures |r| == |t| && Shape(r) == Shape(t) && Markers(r) == Markers(t)
    ensures forall j :: 0 <= j < |t| ==> r[j] == t[j].(visible := t[j].visible || Revealed(Shape(t), Markers(t), j, n, depth))
  {
    var r := seq(|t|, j requires 0 <= j < |t| => t[j].(visible := t[j].visible || Revealed(Shape(t), Markers(t), j, n, depth)));
    assert Shape(r) == Shape(t);
    assert Markers(r) == Markers(t);
    r
  }

  /** Two tables that agree on their shape, markers and visibility are equal. */
  lemma RowsByParts(a: seq<Row>, b: seq<Row>)
    requires Shape(a) == Shape(b)
    requires forall j :: 0 <= j < |a| ==> a[j].marker == b[j].marker && a[j].visible == b[j].visible
    ensures a == b
  {
    assert |a| == |Shape(a)| == |Shape(b)| == |b|;
    forall j | 0 <= j < |a|
      ensures a[j] == b[j]
    {
      assert Shape(a)[j] == Shape(b)[j];
    }
  }

  /** The rows collapse_all()/expand_all() started on row `self` (node n) re-mark: the row itself and every row below n. */
  predicate Marked(t: seq<Row>, self: Option<nat>, j: int, n: string, depth: nat)
    requires 0 <= j < |t|
  {
    self == Some(j) || Below(Shape(t), j, n, depth)
  }

  /** The table after collapse_all() on row `self` (node n). */
  function CollapseAllRows(t: seq<Row>, self: Option<nat>, n: string, depth: nat): (r: seq<Row>)
    ensures |r| == |t| && Shape(r) == Shape(t)
    ensures forall j :: 0 <= j < |t| ==>
      r[j] == t[j].(marker := if Marked(t, self, j, n, depth) then ForceMarker(t[j].marker, Collapsed) else t[j].marker,
                    visible := t[j].visible && !Below(Shape(t), j, n, depth))
  {
    var r := seq(|t|, j requires 0 <= j < |t| =>
      t[j].(marker := if Marked(t, self, j, n, depth) then ForceMarker(t[j].marker, Collapsed) else t[j].marker,
            visible := t[j].visible && !Below(Shape(t), j, n, depth)));
    assert Shape(r) == Shape(t);
    r
  }

  /** The table after expand_all() on row `self` (node n). */
  function ExpandAllRows(t: seq<Row>, self: Option<nat>, n: string, depth: nat): (r: seq<Row>)
    ensures |r| == |t| && Shape(r) == Shape(t)
    ensures forall j :: 0 <= j < |t| ==>
      r[j] == t[j].(marker := if Marked(t, self, j, n, depth) then ForceMarker(t[j].marker, Expanded) else t[j].marker,
                    visible := t[j].visible || Below(Shape(t), j, n, depth))
  {
    var r := seq(|t|, j requires 0 <= j < |t| =>
      t[j].(marker := if Marked(t, self, j, n, depth) then ForceMarker(t[j].marker, Expanded) else t[j].marker,
            visible := t[j].visible || Below(Shape(t), j, n, depth)));
    assert Shape(r) == Shape(t);
    r
  }

  /** expand() only reaches rows that collapse() reaches. */
  lemma {:induction false} RevealedIsBelow(s: seq<Row>, m: seq<Marker>, j: int, n: string, depth: nat)
    requires 0 <= j < |s| == |m|
    requires Revealed(s, m, j, n, depth)
    ensures Below(s, j, n, depth)
    decreases depth
  {
    if s[j].parent != n {
      var i :| 0 <= i < |s| && s[i].parent == n && m[i] == Expanded && Revealed(s, m, j, s[i].node, depth - 1);
      RevealedIsBelow(s, m, j, s[i].node, depth - 1);
    }
  }

  /**
   * collapse() then expand() on the same node: below it, exactly the rows
   * reachable through expanded markers are visible again; no other row and no
   * marker changes.
   */
  lemma CollapseThenExpand(t: seq<Row>, n: string, depth: nat)
    ensures var r := ExpandRows(CollapseRows(t, n, depth), n, depth);
      |r| == |t| && Markers(r) == Markers(t) &&
      (forall j :: 0 <= j < |t| && Below(Shape(t), j, n, depth) ==>
         r[j].visible == Revealed(Shape(t), Markers(t), j, n, depth)) &&
      (forall j :: 0 <= j < |t| && !Below(Shape(t), j, n, depth) ==> r[j] == t[j])
  {
    var c := CollapseRows(t, n, depth);
    var r := ExpandRows(c, n, depth);
    forall j | 0 <= j < |t| && !Below(Shape(t), j, n, depth)
      ensures r[j] == t[j]
    {
      if Revealed(Shape(t), Markers(t), j, n, depth) {
        RevealedIsBelow(Shape(t), Markers(t), j, n, depth);
      }
    }
  }

  /** collapse_all() after expand_all() on the same row leaves what collapse_all() alone leaves. */
  lemma CollapseAllAfterExpandAll(t: seq<Row>, self: Option<nat>, n: string, depth: nat)
    ensures CollapseAllRows(ExpandAllRows(t, self, n, depth), self, n, depth) == CollapseAllRows(t, self, n, depth)
  {
    var e := ExpandAllRows(t, self, n, depth);
    var a := CollapseAllRows(e, self, n, depth);
    var b := CollapseAllRows(t, self, n, depth);
    forall j | 0 <= j < |t|
      ensures a[j] == b[j]
    {
      assert Marked(e, self, j, n, depth) == Marked(t, self, j, n, depth);
    }
  }

  // ---------------------------------------------------------------------------
  // The child walk reaches exactly the rows whose chain of parent rows leads to n.

  /** Node ids are unique in the rendered table (one row per menu item). */
  ghost predicate UniqueNodes(s: seq<Row>)
  {
    forall i, k :: 0 <= i < |s| && 0 <= k < |s| && s[i].node == s[k].node ==> i == k
  }

  /** parent_node(): the first row whose `node` attribute is n. */
  function NodeIndex(s: seq<Row>, n: string): (r: Option<nat>)
    ensures r.Some? ==> r.value < |s| && s[r.value].node == n
    ensures r.Some? ==> forall k :: 0 <= k < r.value ==> s[k].node != n
    ensures r.None? ==> forall k :: 0 <= k < |s| ==> s[k].node != n
    decreases |s|
  {
    if |s| == 0 then None
    else if s[|s| - 1].node == n && NodeIndex(s[..|s| - 1], n).None? then Some(|s| - 1)
    else NodeIndex(s[..|s| - 1], n)
  }

  /** Following parent rows upward from row j reaches a row whose parent is n within `depth` steps. */
  predicate HasAncestor(s: seq<Row>, j: int, n: string, depth: nat)
    requires 0 <= j < |s|
    decreases depth
  {
    depth > 0 &&
    (s[j].parent == n ||
     (NodeIndex(s, s[j].parent).Some? && HasAncestor(s, NodeIndex(s, s[j].parent).value, n, depth - 1)))
  }

  /** A child of a row below n is itself below n, one level deeper. */
  lemma {:induction false} BelowExtendsDown(s: seq<Row>, p: int, j: int, n: string, depth: nat)
    requires 0 <= p < |s| && 0 <= j < |s|
    requires Below(s, p, n, depth) && s[j].parent == s[p].node
    ensures Below(s, j, n, depth + 1)
    decreases depth
  {
    if s[p].parent == n {
      assert Below(s, j, s[p].node, depth);
    } else {
      var i :| 0 <= i < |s| && s[i].parent == n && Below(s, p, s[i].node, depth - 1);
      BelowExtendsDown(s, p, j, s[i].node, depth - 1);
    }
  }

  /** A row with an ancestor m, where m is the node of a child of n, also has ancestor n. */
  lemma {:induction false} AncestorExtendsUp(s: seq<Row>, j: int, i: int, n: string, depth: nat)
    requires UniqueNodes(s)
    requires 0 <= j < |s| && 0 <= i < |s| && s[i].parent == n
    requires HasAncestor(s, j, s[i].node, depth)
    ensures HasAncestor(s, j, n, depth + 1)
    decreases depth
  {
    if s[j].parent == s[i].node {
      assert NodeIndex(s, s[j].parent) == Some(i);
      assert HasAncestor(s, i, n, depth);
    } else {
      var p := NodeIndex(s, s[j].parent).value;
      AncestorExtendsUp(s, p, i, n, depth - 1);
    }
  }

  /**
   * In a table with unique node ids, the downward child walk of collapse()
   * reaches row j from n exactly when n is among the parents met walking
   * upward from j: the walks hide precisely n's subtree.
   */
  lemma {:induction false} BelowIsSubtree(s: seq<Row>, j: int, n: string, depth: nat)
    requires UniqueNodes(s) && 0 <= j < |s|
    ensures Below(s, j, n, depth) <==> HasAncestor(s, j, n, depth)
    decreases depth
  {
    if depth > 0 && s[j].parent != n {
      if Below(s, j, n, depth) {
        var i :| 0 <= i < |s| && s[i].parent == n && Below(s, j, s[i].node, depth - 1);
        BelowIsSubtree(s, j, s[i].node, depth - 1);
        AncestorExtendsUp(s, j, i, n, depth - 1);
      }
      if HasAncestor(s, j, n, depth) {
        var p := NodeIndex(s, s[j].parent).value;
        BelowIsSubtree(s, p, n, depth - 1);
        BelowExtendsDown(s, p, j, n, depth - 1);
      }
    }
  }

  // ---------------------------------------------------------------------------
  // The attribute invariant the server establishes and the script keeps.

  /** The server renders one row per item, the spacer at level - 1, and a toggle exactly on rows with children. */
  ghost predicate Consistent(t: seq<Row>)
  {
    UniqueNodes(t) &&
    forall j :: 0 <= j < |t| ==>
      t[j].spacer == SpacerStyle(t[j].level - 1) && (t[j].marker == NoToggle <==> t[j].childrenNum == 0)
  }

  /** An item as the changelist template receives it. */
  datatype Item = Item(elemId: string, node: string, parent: string, depth: int, childrenCount: nat, name: string)

  /** The row the template renders for an item, with get_spacer and get_collapse. */
  function RenderRow(it: Item, visible: bool): Row
  {
    Row(it.elemId, it.node, it.parent, it.depth, it.childrenCount,
        RenderedMarker(it.childrenCount, it.depth), visible, SpacerStyle(it.depth - 1), it.name)
  }

  /** A table rendered from items with distinct ids satisfies the invariant the script relies on. */
  lemma RenderedTableConsistent(items: seq<Item>, visible: seq<bool>)
    requires |visible| == |items|
    requires forall i, k :: 0 <= i < |items| && 0 <= k < |items| && items[i].node == items[k].node ==> i == k
    ensures Consistent(seq(|items|, j requires 0 <= j < |items| => RenderRow(items[j], visible[j])))
  {
  }

  /** The invariant only looks at the attributes the walks keep and at which rows have a toggle. */
  lemma ConsistentByShape(t: seq<Row>, u: seq<Row>)
    requires Consistent(t) && Shape(u) == Shape(t)
    requires forall j :: 0 <= j < |t| ==> (u[j].marker == NoToggle <==> t[j].marker == NoToggle)
    ensures Consistent(u)
  {
    assert |u| == |Shape(u)| == |t|;
    assert forall j :: 0 <= j < |t| ==> u[j].node == Shape(u)[j].node == Shape(t)[j].node == t[j].node;
    assert forall j :: 0 <= j < |t| ==> u[j].childrenNum == Shape(u)[j].childrenNum == t[j].childrenNum;
    assert forall j :: 0 <= j < |t| ==> u[j].spacer == Shape(u)[j].spacer == t[j].spacer;
    assert forall j :: 0 <= j < |t| ==> u[j].level == Shape(u)[j].level == t[j].level;
  }

  /** collapse() and expand() keep the invariant: they change visibility only. */
  lemma WalksKeepConsistent(t: seq<Row>, n: string, depth: nat)
    requires Consistent(t)
    ensures Consistent(CollapseRows(t, n, depth)) && Consistent(ExpandRows(t, n, depth))
  {
    var a, b := CollapseRows(t, n, depth), ExpandRows(t, n, depth);
    assert forall j :: 0 <= j < |t| ==> a[j].node == t[j].node && b[j].node == t[j].node;
  }

  /** collapse_all() and expand_all() keep the invariant: they re-mark only rows that have a toggle. */
  lemma AllWalksKeepConsistent(t: seq<Row>, self: Option<nat>, n: string, depth: nat)
    requires Consistent(t)
    ensures Consistent(CollapseAllRows(t, self, n, depth)) && Consistent(ExpandAllRows(t, self, n, depth))
  {
    var a, b := CollapseAllRows(t, self, n, depth), ExpandAllRows(t, self, n, depth);
    assert forall j :: 0 <= j < |t| ==> a[j].node == t[j].node && b[j].node == t[j].node;
    assert forall j :: 0 <= j < |t| ==> (a[j].marker == NoToggle <==> t[j].marker == NoToggle);
    assert forall j :: 0 <= j < |t| ==> (b[j].marker == NoToggle <==> t[j].marker == NoToggle);
  }
}
