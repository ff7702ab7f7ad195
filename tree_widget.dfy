/**
 * The tree widget script as one object: the rows of the changelist, the
 * sessionStorage it persists expansion in, the state of the expand-all link,
 * and the drag in progress. Each event handler of the script is a method; the
 * recursive Node walks are methods that run their child loop and are proved
 * to reach the tables TreeRows defines.
 */
module TreeWidget {
  import opened Wrappers
  import opened AdminTree
  import opened TreeRows
  import opened TreeSession
  import opened TreeDrag

  // ---------------------------------------------------------------------------
  // What the child loop of a walk has reached after visiting the first i rows.

  /** Some child of n among the first i rows reaches row j by the collapse walk. */
  ghost predicate ChildReach(s: seq<Row>, j: int, n: string, d: nat, i: int)
    requires 0 <= j < |s|
  {
    exists c :: 0 <= c < i && c < |s| && s[c].parent == n && Below(s, j, s[c].node, d)
  }

  /** Some expanded child of n among the first i rows reveals row j. */
  ghost predicate ChildReveal(s: seq<Row>, m: seq<Marker>, j: int, n: string, d: nat, i: int)
    requires 0 <= j < |s| == |m|
  {
    exists c :: 0 <= c < i && c < |s| && s[c].parent == n && m[c] == Expanded && Revealed(s, m, j, s[c].node, d)
  }

  /** Some child of n among the first i rows is row j or reaches it: the rows the recursive calls re-mark. */
  ghost predicate ChildMark(s: seq<Row>, j: int, n: string, d: nat, i: int)
    requires 0 <= j < |s|
  {
    exists c :: 0 <= c < i && c < |s| && s[c].parent == n && (c == j || Below(s, j, s[c].node, d))
  }

  /** Once every row has been visited, the rows re-marked are exactly the rows below n. */
  lemma ChildMarkIsBelow(s: seq<Row>, j: int, n: string, d: nat)
    requires 0 <= j < |s|
    ensures ChildMark(s, j, n, d, |s|) <==> Below(s, j, n, d + 1)
  {
    if s[j].parent == n {
      assert ChildMark(s, j, n, d, |s|);
    }
  }

  /** Visiting row i adds what child i contributes, if it is a child of n. */
  lemma ChildStep(s: seq<Row>, j: int, n: string, d: nat, i: int)
    requires 0 <= i < |s| && 0 <= j < |s|
    ensures ChildMark(s, j, n, d, i + 1) <==> ChildMark(s, j, n, d, i) || (s[i].parent == n && (i == j || Below(s, j, s[i].node, d)))
    ensures ChildReach(s, j, n, d, i + 1) <==> ChildReach(s, j, n, d, i) || (s[i].parent == n && Below(s, j, s[i].node, d))
  {
  }

  // ---------------------------------------------------------------------------
  // The toggle control and the expand-all link, as functions of the old state.

  /** toggle(): open a collapsed row, close any other, and flip its own marker. */
  function ToggleRows(t: seq<Row>, r: int): (u: seq<Row>)
    requires 0 <= r < |t|
    ensures |u| == |t| && Shape(u) == Shape(t)
    ensures t[r].marker == Collapsed ==> u[r].marker == Expanded
    ensures t[r].marker == Expanded ==> u[r].marker == Collapsed
    ensures t[r].marker == NoToggle ==> u[r].marker == NoToggle
    ensures forall j :: 0 <= j < |t| && j != r ==> u[j].marker == t[j].marker
  {
    if t[r].marker == Collapsed then
      var e := ExpandRows(t, t[r].node, |t|);
      assert e[r].marker == Markers(e)[r] == Markers(t)[r];
      assert forall j :: 0 <= j < |t| ==> e[j].marker == Markers(e)[j] == Markers(t)[j];
      var u := e[r := e[r].(marker := Expanded)];
      assert Shape(u) == Shape(e);
      u
    else
      var c := CollapseRows(t, t[r].node, |t|);
      assert forall j :: 0 <= j < |t| ==> c[j].marker == Markers(c)[j] == Markers(t)[j];
      var u := c[r := c[r].(marker := ForceMarker(c[r].marker, Collapsed))];
      assert Shape(u) == Shape(c);
      u
  }

  /** The session side of toggle(): add_to_session when opening, remove_from_session when closing. */
  function ToggleStorage(s: Storage, key: string, t: seq<Row>, r: int): Storage
    requires 0 <= r < |t|
  {
    if t[r].marker == Collapsed then SessionAfterAdd(s, key, t[r].elemId) else SessionAfterRemove(s, key, t, r)
  }

  /** `!this.hasAttribute('class') || $(this).hasClass('collapsed-all')`: the next click expands all. */
  predicate OpensAll(linkClass: Option<set<string>>)
  {
    linkClass.None? || "collapsed-all" in linkClass.value
  }

  /** The link's classes after a click that expanded (`toExpanded`) or collapsed all. */
  function LinkClassAfter(linkClass: Option<set<string>>, toExpanded: bool): set<string>
  {
    var c := if linkClass.Some? then linkClass.value else {};
    if toExpanded then c + {"expanded-all"} - {"collapsed-all"} else c + {"collapsed-all"} - {"expanded-all"}
  }

  /** `$.find('tr[level=' + level + ']')[0]`: the first row at that level. */
  function FirstAtLevel(t: seq<Row>, level: int): (r: Option<nat>)
    ensures r.Some? ==> r.value < |t| && t[r.value].level == level && forall k :: 0 <= k < r.value ==> t[k].level != level
    ensures r.None? ==> forall k :: 0 <= k < |t| ==> t[k].level != level
    decreases |t|
  {
    if |t| == 0 then None
    else if t[0].level == level then Some(0)
    else match FirstAtLevel(t[1..], level)
      case Some(i) => Some(i + 1)
      case None => None
  }

  /** The node expand_all()/collapse_all() start from: the first level-1 row's, or jQuery's empty Node. */
  function RootNode(t: seq<Row>): string
  {
    match FirstAtLevel(t, 1)
    case Some(i) => t[i].node
    case None => UndefinedId
  }

  class NavigationTree {
    var rows: seq<Row>
    var storage: Storage
    /** `data-menu-content-id` of the result list. */
    const menuContentId: string
    /** `data-move-message` of the table body. */
    const moveMessage: string
    /** The click handlers are bound: no GET filters on the page. */
    const collapseBound: bool
    /** The drag handler is bound: no filters and drag and drop not disabled. */
    const dragBound: bool
    /** Class attribute of the expand-all link; None while it has none. */
    var linkClass: Option<set<string>>
    var linkText: string
    /** The row being dragged, between mousedown and mouseup or escape. */
    var dragged: Option<nat>
    /** The globals `$targetRow` and `as_child`. */
    var hover: Hover

    ghost predicate Valid()
      reads this
    {
      (dragged.Some? ==> dragged.value < |rows|) && (hover.target.Some? ==> hover.target.value < |rows|)
    }

    function Key(): string
    {
      ExpandedKey(menuContentId)
    }

    /** The document-ready handler: replay the stored expansion list, then bind the handlers the page allows. */
    constructor (t: seq<Row>, s: Storage, menuContentId: string, moveMessage: string, hasFilters: bool, dragDisabled: bool)
      ensures rows == RestoreOnLoad(t, s, ExpandedKey(menuContentId)) && storage == s
      ensures this.menuContentId == menuContentId && this.moveMessage == moveMessage
      ensures collapseBound == !hasFilters && dragBound == (!hasFilters && !dragDisabled)
      ensures linkClass == None && linkText == "+" && dragged == None && hover == Hover(None, false)
      ensures Valid()
    {
      rows := t;
      storage := s;
      this.menuContentId := menuContentId;
      this.moveMessage := moveMessage;
      collapseBound := !hasFilters;
      dragBound := !hasFilters && !dragDisabled;
      linkClass := None;
      linkText := "+";
      dragged := None;
      hover := Hover(None, false);
      new;
      var key := ExpandedKey(menuContentId);
      if key in storage {
        var ids := storage[key];
        var k := 0;
        while k < |ids|
          invariant 0 <= k <= |ids|
          invariant rows == RestoreAll(t, ids[..k])
          invariant storage == s && linkClass == None && linkText == "+" && dragged == None && hover == Hover(None, false)
        {
          assert ids[..k + 1][..k] == ids[..k];
          Restore(ids[k]);
          k := k + 1;
        }
        assert ids[..|ids|] == ids;
      }
    }

    /** One entry of the stored list: expand the row with that element id and mark it expanded. */
    method Restore(id: string)
      modifies this`rows
      ensures rows == RestoreOne(old(rows), id)
    {
      match FindElem(rows, id)
      case Some(i) =>
        ghost var t0 := rows;
        Expand(rows[i].node, |rows|);
        assert rows[i].node == Shape(rows)[i].node == Shape(t0)[i].node == t0[i].node;
        rows := rows[i := rows[i].(marker := ForceMarker(rows[i].marker, Expanded))];
      case None =>
        Expand(UndefinedId, |rows|);
    }

    /** collapse(): collapse every child of n, then hide the children. */
    method Collapse(n: string, depth: nat)
      modifies this`rows
      ensures rows == CollapseRows(old(rows), n, depth)
      decreases depth
    {
      if depth == 0 {
        return;
      }
      ghost var t0 := rows;
      ghost var s := Shape(t0);
      var i := 0;
      while i < |rows|
        invariant 0 <= i <= |rows| == |t0|
        invariant Shape(rows) == s
        invariant forall j :: 0 <= j < |t0| ==> rows[j] == t0[j].(visible := t0[j].visible && !ChildReach(s, j, n, depth - 1, i))
      {
        if rows[i].parent == n {
          assert rows[i].node == Shape(rows)[i].node == s[i].node;
          Collapse(rows[i].node, depth - 1);
        }
        assert rows[i].parent == Shape(rows)[i].parent == s[i].parent;
        i := i + 1;
      }
      var cur := rows;
      rows := seq(|cur|, j requires 0 <= j < |cur| => if cur[j].parent == n then cur[j].(visible := false) else cur[j]);
      assert forall j :: 0 <= j < |t0| ==> cur[j].parent == Shape(cur)[j].parent == s[j].parent;
    }

    /** expand(): re-expand the children marked expanded, then show all children. */
    method Expand(n: string, depth: nat)
      modifies this`rows
      ensures rows == ExpandRows(old(rows), n, depth)
      decreases depth
    {
      if depth == 0 {
        return;
      }
      ghost var t0 := rows;
      ghost var s, m := Shape(t0), Markers(t0);
      var i := 0;
      while i < |rows|
        invariant 0 <= i <= |rows| == |t0|
        invariant Shape(rows) == s && Markers(rows) == m
        invariant forall j :: 0 <= j < |t0| ==> rows[j] == t0[j].(visible := t0[j].visible || ChildReveal(s, m, j, n, depth - 1, i))
      {
        assert rows[i].parent == Shape(rows)[i].parent == s[i].parent;
        assert rows[i].marker == Markers(rows)[i] == m[i];
        if rows[i].parent == n && rows[i].marker == Expanded {
          assert rows[i].node == Shape(rows)[i].node == s[i].node;
          Expand(rows[i].node, depth - 1);
        }
        i := i + 1;
      }
      var cur := rows;
      rows := seq(|cur|, j requires 0 <= j < |cur| => if cur[j].parent == n then cur[j].(visible := true) else cur[j]);
      assert forall j :: 0 <= j < |t0| ==> cur[j].parent == Shape(cur)[j].parent == s[j].parent;
    }

    /** collapse_all() on row `self` (node n): mark it collapsed, recurse into the children, hide them, clear the storage. */
    method CollapseAll(self: Option<nat>, n: string, depth: nat)
      requires self.Some? ==> self.value < |rows|
      modifies this`rows, this`storage
      ensures rows == CollapseAllRows(old(rows), self, n, depth)
      ensures storage == map[]
      decreases depth
    {
      ghost var t0 := rows;
      ghost var s := Shape(t0);
      if self.Some? {
        var k := self.value;
        rows := rows[k := rows[k].(marker := ForceMarker(rows[k].marker, Collapsed))];
      }
      if depth > 0 {
        var i := 0;
        while i < |rows|
          invariant 0 <= i <= |rows| == |t0|
          invariant Shape(rows) == s
          invariant forall j :: 0 <= j < |t0| ==>
            rows[j].marker == if self == Some(j) || ChildMark(s, j, n, depth - 1, i) then ForceMarker(t0[j].marker, Collapsed) else t0[j].marker
          invariant forall j :: 0 <= j < |t0| ==> rows[j].visible == (t0[j].visible && !ChildReach(s, j, n, depth - 1, i))
        {
          assert rows[i].parent == Shape(rows)[i].parent == s[i].parent;
          if rows[i].parent == n {
            assert rows[i].node == Shape(rows)[i].node == s[i].node;
            CollapseAll(Some(i), rows[i].node, depth - 1);
          }
          forall j | 0 <= j < |t0|
            ensures rows[j].marker ==
              if self == Some(j) || ChildMark(s, j, n, depth - 1, i + 1) then ForceMarker(t0[j].marker, Collapsed) else t0[j].marker
            ensures rows[j].visible == (t0[j].visible && !ChildReach(s, j, n, depth - 1, i + 1))
          {
            ChildStep(s, j, n, depth - 1, i);
          }
          i := i + 1;
        }
        var cur := rows;
        rows := seq(|cur|, j requires 0 <= j < |cur| => if cur[j].parent == n then cur[j].(visible := false) else cur[j]);
        assert forall j :: 0 <= j < |t0| ==> cur[j].parent == Shape(cur)[j].parent == s[j].parent;
        forall j | 0 <= j < |t0|
          ensures ChildMark(s, j, n, depth - 1, |t0|) <==> Below(s, j, n, depth)
        {
          ChildMarkIsBelow(s, j, n, depth - 1);
        }
        RowsByParts(rows, CollapseAllRows(t0, self, n, depth));
      }
      storage := map[];
    }

    /** expand_all() on row `self` (node n): mark it expanded, recurse into the children, show them, clear the storage. */
    method ExpandAll(self: Option<nat>, n: string, depth: nat)
      requires self.Some? ==> self.value < |rows|
      modifies this`rows, this`storage
      ensures rows == ExpandAllRows(old(rows), self, n, depth)
      ensures storage == map[]
      decreases depth
    {
      ghost var t0 := rows;
      ghost var s := Shape(t0);
      if self.Some? {
        var k := self.value;
        rows := rows[k := rows[k].(marker := ForceMarker(rows[k].marker, Expanded))];
      }
      if depth > 0 {
        var i := 0;
        while i < |rows|
          invariant 0 <= i <= |rows| == |t0|
          invariant Shape(rows) == s
          invariant forall j :: 0 <= j < |t0| ==>
            rows[j].marker == if self == Some(j) || ChildMark(s, j, n, depth - 1, i) then ForceMarker(t0[j].marker, Expanded) else t0[j].marker
          invariant forall j :: 0 <= j < |t0| ==> rows[j].visible == (t0[j].visible || ChildReach(s, j, n, depth - 1, i))
        {
          assert rows[i].parent == Shape(rows)[i].parent == s[i].parent;
          if rows[i].parent == n {
            assert rows[i].node == Shape(rows)[i].node == s[i].node;
            ExpandAll(Some(i), rows[i].node, depth - 1);
          }
          forall j | 0 <= j < |t0|
            ensures rows[j].marker ==
              if self == Some(j) || ChildMark(s, j, n, depth - 1, i + 1) then ForceMarker(t0[j].marker, Expanded) else t0[j].marker
            ensures rows[j].visible == (t0[j].visible || ChildReach(s, j, n, depth - 1, i + 1))
          {
            ChildStep(s, j, n, depth - 1, i);
          }
          i := i + 1;
        }
        var cur := rows;
        rows := seq(|cur|, j requires 0 <= j < |cur| => if cur[j].parent == n then cur[j].(visible := true) else cur[j]);
        assert forall j :: 0 <= j < |t0| ==> cur[j].parent == Shape(cur)[j].parent == s[j].parent;
        forall j | 0 <= j < |t0|
          ensures ChildMark(s, j, n, depth - 1, |t0|) <==> Below(s, j, n, depth)
        {
          ChildMarkIsBelow(s, j, n, depth - 1);
        }
        RowsByParts(rows, ExpandAllRows(t0, self, n, depth));
      }
      storage := map[];
    }

    /** add_to_session(): append the row's element id to the stored list. */
    method AddToSession(r: int)
      requires 0 <= r < |rows|
      modifies this`storage
      ensures storage == SessionAfterAdd(old(storage), Key(), rows[r].elemId)
    {
      var key := ExpandedKey(menuContentId);
      var expanded := Stored(storage, key);
      expanded := expanded + [rows[r].elemId];
      storage := storage[key := expanded];
    }

    /** remove_from_session(): filter out the row's id and, if it has children, each direct child's id. */
    method RemoveFromSession(r: int)
      requires 0 <= r < |rows|
      modifies this`storage
      ensures storage == SessionAfterRemove(old(storage), Key(), rows, r)
    {
      var key := ExpandedKey(menuContentId);
      var expanded := Stored(storage, key);
      ghost var orig := expanded;
      var own := rows[r].elemId;
      expanded := Omit(expanded, {own});
      if rows[r].childrenNum > 0 {
        var n := rows[r].node;
        var i := 0;
        assert ChildIdsBefore(rows, n, 0) == {};
        assert {own} + ChildIdsBefore(rows, n, 0) == {own};
        while i < |rows|
          invariant 0 <= i <= |rows|
          invariant expanded == Omit(orig, {own} + ChildIdsBefore(rows, n, i))
          invariant storage == old(storage)
        {
          if rows[i].parent == n {
            OmitTwice(orig, {own} + ChildIdsBefore(rows, n, i), {rows[i].elemId});
            assert ChildIdsBefore(rows, n, i + 1) == ChildIdsBefore(rows, n, i) + {rows[i].elemId};
            assert {own} + ChildIdsBefore(rows, n, i) + {rows[i].elemId} == {own} + ChildIdsBefore(rows, n, i + 1);
            expanded := Omit(expanded, {rows[i].elemId});
          } else {
            assert ChildIdsBefore(rows, n, i + 1) == ChildIdsBefore(rows, n, i);
          }
          i := i + 1;
        }
        assert ChildIdsBefore(rows, n, |rows|) == ChildIds(rows, n);
        assert {own} + ChildIdsBefore(rows, n, |rows|) == RemovedIds(rows, r);
      } else {
        assert RemovedIds(rows, r) == {own};
      }
      storage := storage[key := expanded];
    }

    /** toggle() on row r. */
    method Toggle(r: int)
      requires 0 <= r < |rows|
      modifies this`rows, this`storage
      ensures rows == ToggleRows(old(rows), r)
      ensures storage == ToggleStorage(old(storage), Key(), old(rows), r)
    {
      ghost var t0 := rows;
      if rows[r].marker == Collapsed {
        Expand(rows[r].node, |rows|);
        assert rows[r].elemId == Shape(rows)[r].elemId == t0[r].elemId;
        rows := rows[r := rows[r].(marker := Expanded)];
        AddToSession(r);
      } else {
        Collapse(rows[r].node, |rows|);
        rows := rows[r := rows[r].(marker := ForceMarker(rows[r].marker, Collapsed))];
        assert Shape(rows) == Shape(t0);
        RemovedIdsOfShape(t0, rows, r);
        RemoveFromSession(r);
      }
    }

    /** The click handler of a row's toggle link; a row without children has no link to click. */
    method ClickToggle(r: int)
      requires Valid() && 0 <= r < |rows|
      modifies this`rows, this`storage
      ensures Valid()
      ensures collapseBound && old(rows)[r].marker != NoToggle ==>
        rows == ToggleRows(old(rows), r) && storage == ToggleStorage(old(storage), Key(), old(rows), r)
      ensures !(collapseBound && old(rows)[r].marker != NoToggle) ==> rows == old(rows) && storage == old(storage)
    {
      if collapseBound && rows[r].marker != NoToggle {
        Toggle(r);
      }
    }

    /** The click handler of the expand-all link in the column header. */
    method ClickExpandAll()
      requires Valid()
      modifies this`rows, this`storage, this`linkClass, this`linkText
      ensures Valid()
      ensures !collapseBound ==> rows == old(rows) && storage == old(storage) && linkClass == old(linkClass) && linkText == old(linkText)
      ensures collapseBound ==>
        var self := FirstAtLevel(old(rows), 1);
        var n := RootNode(old(rows));
        storage == map[] &&
        linkClass == Some(LinkClassAfter(old(linkClass), OpensAll(old(linkClass)))) &&
        if OpensAll(old(linkClass)) then
          rows == ExpandAllRows(old(rows), self, n, |old(rows)|) && linkText == "-"
        else
          rows == CollapseAllRows(old(rows), self, n, |old(rows)|) && linkText == "+"
    {
      if !collapseBound {
        return;
      }
      var self := FirstAtLevel(rows, 1);
      var n := if self.Some? then rows[self.value].node else UndefinedId;
      if linkClass.None? || "collapsed-all" in linkClass.value {
        ExpandAll(self, n, |rows|);
        linkClass := Some(LinkClassAfter(linkClass, true));
        linkText := "-";
      } else {
        CollapseAll(self, n, |rows|);
        linkClass := Some(LinkClassAfter(linkClass, false));
        linkText := "+";
      }
    }

    /** mousedown on a row's drag handle: start the drag with no target. */
    method MouseDown(d: int)
      requires Valid() && 0 <= d < |rows|
      modifies this`dragged, this`hover
      ensures Valid()
      ensures dragBound ==> dragged == Some(d) && hover == Hover(None, false)
      ensures !dragBound ==> dragged == old(dragged) && hover == old(hover)
    {
      if dragBound {
        dragged := Some(d);
        hover := Hover(None, false);
      }
    }

    /**
     * mousemove during a drag, the pointer at height y, `tops` the rows'
     * offsets when the event fires and h the dragged row's height.
     */
    method MouseMove(y: int, tops: seq<int>, h: int)
      requires Valid() && |tops| == |rows|
      modifies this`rows, this`hover
      ensures Valid()
      ensures old(dragged).None? ==> rows == old(rows) && hover == old(hover)
      ensures old(dragged).Some? ==>
        ScanState(hover, rows) == ScanUpTo(ScanState(old(hover), old(rows)), tops, y, h, tops[old(dragged).value], |tops|)
    {
      if dragged.None? {
        return;
      }
      var dTop := tops[dragged.value];
      ghost var st0 := ScanState(hover, rows);
      var i := 0;
      while i < |rows|
        invariant 0 <= i <= |rows| == |tops|
        invariant ScanState(hover, rows) == ScanUpTo(st0, tops, y, h, dTop, i)
        invariant hover.target.Some? ==> hover.target.value < |rows|
      {
        if InBand(y, dTop, h) {
          hover := hover.(target := None);
        } else if UpperHalf(y, tops[i], h) {
          hover := Hover(Some(i), false);
        } else if LowerHalf(y, tops[i], h) {
          hover := Hover(Some(i), true);
          if rows[i].marker == Collapsed {
            Expand(rows[i].node, |rows|);
          }
        }
        i := i + 1;
      }
    }

    /**
     * mouseup: show the confirm prompt, send the move request when it applies
     * and, when the server accepts it (`succeeded`), patch the table; the drag
     * ends in every case.
     */
    method MouseUp(confirmed: bool, succeeded: bool) returns (prompt: Option<string>, request: Option<MoveRequest>)
      requires Valid()
      modifies this`rows, this`dragged
      ensures Valid() && dragged == None
      ensures old(dragged).None? ==> prompt == None && request == None && rows == old(rows)
      ensures old(dragged).Some? ==>
        var d := old(dragged).value;
        prompt == Some(moveMessage + " " + old(rows)[d].name + "?") &&
        request == ReleaseRequest(old(rows), d, hover, confirmed) &&
        rows == if request.Some? && succeeded then MovedRows(old(rows), d, hover.target.value, hover.asChild) else old(rows)
    {
      prompt, request := None, None;
      if dragged.None? {
        return;
      }
      var d := dragged.value;
      prompt := Some(moveMessage + " " + rows[d].name + "?");
      request := ReleaseRequest(rows, d, hover, confirmed);
      if request.Some? && succeeded {
        ReleaseNeverSelf(rows, d, hover, confirmed);
        rows := MovedRows(rows, d, hover.target.value, hover.asChild);
      }
      dragged := None;
    }

    /** keyup: escape (key code 27) ends the drag. */
    method KeyUp(code: int)
      requires Valid()
      modifies this`dragged
      ensures Valid()
      ensures dragged == if code == 27 then None else old(dragged)
    {
      if code == 27 {
        dragged := None;
      }
    }
  }

  // ---------------------------------------------------------------------------
  // What the handlers promise, stated on the functions the methods reach.

  /** Opening a collapsed row shows its direct children, marks it expanded and records its id last in the list. */
  lemma ToggleOpens(s: Storage, key: string, t: seq<Row>, r: int)
    requires 0 <= r < |t| && t[r].marker == Collapsed
    ensures var u := ToggleRows(t, r);
      u[r].marker == Expanded &&
      (forall c :: 0 <= c < |t| && t[c].parent == t[r].node ==> u[c].visible) &&
      Stored(ToggleStorage(s, key, t, r), key) == Stored(s, key) + [t[r].elemId]
  {
    forall c | 0 <= c < |t| && t[c].parent == t[r].node
      ensures ToggleRows(t, r)[c].visible
    {
      assert Shape(t)[c].parent == t[r].node;
      assert Revealed(Shape(t), Markers(t), c, t[r].node, |t|);
    }
  }

  /**
   * Closing a row hides exactly its descendants (the rows whose chain of
   * parents reaches it) and leaves every other row's visibility alone; the
   * row's own marker closes and its id leaves the stored list.
   */
  lemma ToggleClosesDescendants(s: Storage, key: string, t: seq<Row>, r: int, j: int)
    requires 0 <= r < |t| && t[r].marker != Collapsed && UniqueNodes(t) && 0 <= j < |t|
    ensures ToggleRows(t, r)[r].marker == ForceMarker(t[r].marker, Collapsed)
    ensures ToggleRows(t, r)[j].visible == (t[j].visible && !HasAncestor(Shape(t), j, t[r].node, |t|))
    ensures t[r].elemId !in Stored(ToggleStorage(s, key, t, r), key)
  {
    assert UniqueNodes(Shape(t)) by {
      assert forall k :: 0 <= k < |t| ==> Shape(t)[k].node == t[k].node;
    }
    BelowIsSubtree(Shape(t), j, t[r].node, |t|);
  }

  /** Filtering out an id that was just appended gives the same list as filtering the original. */
  lemma {:induction false} OmitAppended(ids: seq<string>, x: string, drop: set<string>)
    requires x in drop
    ensures Omit(ids + [x], drop) == Omit(ids, drop)
    decreases |ids|
  {
    if ids == [] {
      assert Omit([x], drop) == [] + Omit([], drop);
    } else {
      assert (ids + [x])[1..] == ids[1..] + [x];
      OmitAppended(ids[1..], x, drop);
    }
  }

  /**
   * Opening then closing a row leaves the stored list as if only the closing
   * had happened, and puts the marker back; nothing of the opening survives in
   * the storage.
   */
  lemma ToggleOpenThenClose(s: Storage, key: string, t: seq<Row>, r: int)
    requires 0 <= r < |t| && t[r].marker == Collapsed
    ensures var u := ToggleRows(t, r);
      var w := ToggleRows(u, r);
      w[r].marker == Collapsed && Shape(w) == Shape(t) &&
      Stored(ToggleStorage(ToggleStorage(s, key, t, r), key, u, r), key) == Omit(Stored(s, key), RemovedIds(t, r))
  {
    var u := ToggleRows(t, r);
    RemovedIdsOfShape(t, u, r);
    OmitAppended(Stored(s, key), t[r].elemId, RemovedIds(t, r));
  }

  /** Both branches of toggle() keep the rendered table's invariant. */
  lemma ToggleKeepsConsistent(t: seq<Row>, r: int)
    requires 0 <= r < |t| && Consistent(t)
    ensures Consistent(ToggleRows(t, r))
  {
    ConsistentByShape(t, ToggleRows(t, r));
  }

  /** The expand-all link alternates: a click that expanded all makes the next click collapse all, and the other way round. */
  lemma ExpandAllLinkAlternates(linkClass: Option<set<string>>)
    ensures OpensAll(Some(LinkClassAfter(linkClass, OpensAll(linkClass)))) == !OpensAll(linkClass)
  {
  }
}
