/**
 * Drag and drop in the tree widget script: the drop target the mousemove
 * handler computes, the move request the mouseup handler sends, and the patch
 * the success handler applies to the dragged row.
 *
 * Vertical positions are integers; "y <= top + h/2" is written 2*y <= 2*top + h.
 */
module TreeDrag {
  import opened Wrappers
  import opened AdminTree
  import opened TreeRows

  /** The globals `$targetRow` and `as_child`. */
  datatype Hover = Hover(target: Option<nat>, asChild: bool)

  /** The pointer is on the dragged row itself: [top, top + h]. */
  predicate InBand(y: int, top: int, h: int)
  {
    top <= y <= top + h
  }

  /** The pointer is on the upper half of a row, midpoint included: [top, top + h/2]. */
  predicate UpperHalf(y: int, top: int, h: int)
  {
    top <= y && 2 * y <= 2 * top + h
  }

  /** The pointer is on the lower half of a row: [top + h/2, top + h]. */
  predicate LowerHalf(y: int, top: int, h: int)
  {
    2 * top + h <= 2 * y && y <= top + h
  }

  /** A row the scan stops at. */
  predicate Hits(y: int, top: int, h: int)
  {
    UpperHalf(y, top, h) || LowerHalf(y, top, h)
  }

  datatype ScanState = ScanState(hover: Hover, rows: seq<Row>)

  /**
   * The body of the `each` loop of the mousemove handler for row i. h is the
   * dragged row's height and dTop its top. Hovering the lower half of a
   * collapsed row runs expand() on it without touching its marker.
   */
  function ScanStep(st: ScanState, tops: seq<int>, y: int, h: int, dTop: int, i: int): (r: ScanState)
    requires 0 <= i < |tops| == |st.rows|
    ensures |r.rows| == |st.rows| && Shape(r.rows) == Shape(st.rows) && Markers(r.rows) == Markers(st.rows)
  {
    if InBand(y, dTop, h) then
      st.(hover := st.hover.(target := None))
    else if UpperHalf(y, tops[i], h) then
      st.(hover := Hover(Some(i), false))
    else if LowerHalf(y, tops[i], h) then
      ScanState(Hover(Some(i), true),
                if st.rows[i].marker == Collapsed then ExpandRows(st.rows, st.rows[i].node, |st.rows|) else st.rows)
    else
      st
  }

  /** The loop over the first k rows. */
  function ScanUpTo(st: ScanState, tops: seq<int>, y: int, h: int, dTop: int, k: nat): (r: ScanState)
    requires k <= |tops| == |st.rows|
    ensures |r.rows| == |st.rows| && Shape(r.rows) == Shape(st.rows) && Markers(r.rows) == Markers(st.rows)
    decreases k
  {
    if k == 0 then st else ScanStep(ScanUpTo(st, tops, y, h, dTop, k - 1), tops, y, h, dTop, k - 1)
  }

  /** On its own band the dragged row aborts: the target is null whatever the other rows, and the mode is left as it was. */
  lemma {:induction false} ScanOnOwnBand(st: ScanState, tops: seq<int>, y: int, h: int, dTop: int, k: nat)
    requires k <= |tops| == |st.rows| && InBand(y, dTop, h)
    ensures var r := ScanUpTo(st, tops, y, h, dTop, k);
      r.hover.asChild == st.hover.asChild && (k > 0 ==> r.hover.target == None) && r.rows == st.rows
    decreases k
  {
    if k > 0 {
      ScanOnOwnBand(st, tops, y, h, dTop, k - 1);
    }
  }

  /**
   * Off its own band, the last row (in table order) the pointer hits wins: as
   * sibling on its upper half, midpoint included, as child on its lower half.
   * When no row is hit, target and mode keep their previous values.
   */
  lemma {:induction false} ScanLastHitWins(st: ScanState, tops: seq<int>, y: int, h: int, dTop: int, k: nat)
    requires k <= |tops| == |st.rows| && !InBand(y, dTop, h)
    ensures var r := ScanUpTo(st, tops, y, h, dTop, k);
      ((forall i :: 0 <= i < k ==> !Hits(y, tops[i], h)) ==> r.hover == st.hover) &&
      (forall i :: 0 <= i < k && Hits(y, tops[i], h) && (forall l :: i < l < k ==> !Hits(y, tops[l], h)) ==>
         r.hover == Hover(Some(i), !UpperHalf(y, tops[i], h)))
    decreases k
  {
    if k > 0 {
      ScanLastHitWins(st, tops, y, h, dTop, k - 1);
    }
  }

  /** The scan only ever shows rows: no row is hidden and no marker changes. */
  lemma {:induction false} ScanOnlyShows(st: ScanState, tops: seq<int>, y: int, h: int, dTop: int, k: nat, j: int)
    requires k <= |tops| == |st.rows| && 0 <= j < |st.rows| && st.rows[j].visible
    ensures ScanUpTo(st, tops, y, h, dTop, k).rows[j].visible
    decreases k
  {
    if k > 0 {
      ScanOnlyShows(st, tops, y, h, dTop, k - 1, j);
    }
  }

  /** One step of the scan never hides a row. */
  lemma StepOnlyShows(st: ScanState, tops: seq<int>, y: int, h: int, dTop: int, i: int, j: int)
    requires 0 <= i < |tops| == |st.rows| && 0 <= j < |st.rows| && st.rows[j].visible
    ensures ScanStep(st, tops, y, h, dTop, i).rows[j].visible
  {
  }

  /** expand() on a row shows each of its direct children. */
  lemma ExpandShowsChildren(t: seq<Row>, i: int, c: int)
    requires 0 <= i < |t| && 0 <= c < |t| && t[c].parent == t[i].node
    ensures ExpandRows(t, t[i].node, |t|)[c].visible
  {
    assert Shape(t)[c].parent == t[i].node;
    assert Revealed(Shape(t), Markers(t), c, t[i].node, |t|);
  }

  /** Hovering the lower half of a collapsed row opens it: its direct children are shown when the scan ends. */
  lemma {:induction false} ChildHoverOpensTarget(st: ScanState, tops: seq<int>, y: int, h: int, dTop: int, k: nat, i: int, c: int)
    requires k <= |tops| == |st.rows| && !InBand(y, dTop, h)
    requires 0 <= i < k && LowerHalf(y, tops[i], h) && !UpperHalf(y, tops[i], h) && st.rows[i].marker == Collapsed
    requires 0 <= c < |st.rows| && st.rows[c].parent == st.rows[i].node
    ensures ScanUpTo(st, tops, y, h, dTop, k).rows[c].visible
    decreases k
  {
    var before := ScanUpTo(st, tops, y, h, dTop, k - 1);
    if i == k - 1 {
      assert before.rows[i].marker == Markers(before.rows)[i] == Markers(st.rows)[i];
      assert before.rows[i].node == Shape(before.rows)[i].node == Shape(st.rows)[i].node == st.rows[i].node;
      assert before.rows[c].parent == Shape(before.rows)[c].parent == Shape(st.rows)[c].parent == st.rows[c].parent;
      assert ScanStep(before, tops, y, h, dTop, i).rows == ExpandRows(before.rows, before.rows[i].node, |before.rows|);
      ExpandShowsChildren(before.rows, i, c);
    } else {
      ChildHoverOpensTarget(st, tops, y, h, dTop, k - 1, i, c);
      StepOnlyShows(before, tops, y, h, dTop, k - 1, c);
    }
  }

  /** The POST body of the move request. */
  datatype MoveRequest = MoveRequest(nodeId: string, parentId: string, siblingId: string, asChild: int)

  /**
   * The mouseup handler: a request is sent only when there is a target, the
   * confirm prompt was accepted, and the target is another node. Its
   * `parent_id` is the target's parent in both modes.
   */
  function ReleaseRequest(t: seq<Row>, d: int, hv: Hover, confirmed: bool): (r: Option<MoveRequest>)
    requires 0 <= d < |t| && (hv.target.Some? ==> hv.target.value < |t|)
    ensures r.Some? <==> hv.target.Some? && confirmed && t[hv.target.value].node != t[d].node
    ensures r.Some? ==> var tg := t[hv.target.value];
      r.value == MoveRequest(t[d].node, tg.parent, tg.node, if hv.asChild then 1 else 0)
  {
    if hv.target.Some? && confirmed && t[hv.target.value].node != t[d].node then
      var tg := t[hv.target.value];
      Some(MoveRequest(t[d].node, tg.parent, tg.node, if hv.asChild then 1 else 0))
    else
      None
  }

  /** A move request never names the dragged node as its own sibling. */
  lemma ReleaseNeverSelf(t: seq<Row>, d: int, hv: Hover, confirmed: bool)
    requires 0 <= d < |t| && (hv.target.Some? ==> hv.target.value < |t|)
    requires ReleaseRequest(t, d, hv, confirmed).Some?
    ensures ReleaseRequest(t, d, hv, confirmed).value.siblingId != ReleaseRequest(t, d, hv, confirmed).value.nodeId
    ensures hv.target.value != d
  {
  }

  /** Where the dragged row lands among the other rows. */
  function MovedIndex(d: int, tg: int, asChild: bool): int
  {
    (if tg < d then tg else tg - 1) + (if asChild then 1 else 0)
  }

  /** The dragged row after the success handler: new parent, level and spacer. */
  function PatchedRow(t: seq<Row>, d: int, tg: int, asChild: bool): Row
    requires 0 <= d < |t| && 0 <= tg < |t|
  {
    var level := t[tg].level + (if asChild then 1 else 0);
    t[d].(parent := if asChild then t[tg].node else t[tg].parent,
          level := level,
          spacer := SpacerStyle(level - 1))
  }

  /** Detach the element at d and insert x at position p of what remains: jQuery's detach() followed by after()/before(). */
  function Reinsert<T>(s: seq<T>, d: int, p: int, x: T): seq<T>
    requires 0 <= d < |s| && 0 <= p < |s|
  {
    var rest := s[..d] + s[d + 1..];
    rest[..p] + [x] + rest[p..]
  }

  /** The index in the old sequence of the element at position k != p of the new one. */
  function Origin(d: int, p: int, k: int): int
  {
    var q := if k < p then k else k - 1;
    if q < d then q else q + 1
  }

  lemma ReinsertAt<T>(s: seq<T>, d: int, p: int, x: T, k: int)
    requires 0 <= d < |s| && 0 <= p < |s| && 0 <= k < |s|
    ensures |Reinsert(s, d, p, x)| == |s|
    ensures k != p ==> 0 <= Origin(d, p, k) < |s| && Origin(d, p, k) != d
    ensures Reinsert(s, d, p, x)[k] == if k == p then x else s[Origin(d, p, k)]
  {
    var rest := s[..d] + s[d + 1..];
    var r := rest[..p] + [x] + rest[p..];
    if k != p {
      var q := if k < p then k else k - 1;
      assert r[k] == rest[q];
      if q < d {
        assert rest[q] == s[q];
      } else {
        assert rest[q] == s[d + 1..][q - d] == s[q + 1];
      }
    }
  }

  /** Two positions of the new sequence other than p come from two positions of the old one. */
  lemma OriginInjective(d: int, p: int, a: int, b: int)
    requires a != p && b != p && a != b
    ensures Origin(d, p, a) != Origin(d, p, b)
  {
  }

  /** The table after the success handler: the patched row detached and re-inserted after (child) or before (sibling) the target. */
  function MovedRows(t: seq<Row>, d: int, tg: int, asChild: bool): seq<Row>
    requires 0 <= d < |t| && 0 <= tg < |t| && d != tg
  {
    Reinsert(t, d, MovedIndex(d, tg, asChild), PatchedRow(t, d, tg, asChild))
  }

  /** Taking the inserted element back out leaves the other elements in their old order. */
  lemma ReinsertKeepsOthers<T>(s: seq<T>, d: int, p: int, x: T)
    requires 0 <= d < |s| && 0 <= p < |s|
    ensures var r := Reinsert(s, d, p, x); r[..p] + r[p + 1..] == s[..d] + s[d + 1..]
  {
    var rest := s[..d] + s[d + 1..];
    var r := rest[..p] + [x] + rest[p..];
    assert r[..p] == rest[..p];
    assert r[p + 1..] == rest[p..];
    assert rest[..p] + rest[p..] == rest;
  }

  /**
   * The success patch: the dragged row gets the target's level (+1 as child),
   * the target's id (as child) or parent (as sibling) as parent, a spacer of
   * level - 1, and sits right after (as child) or right before (as sibling)
   * the target. Every other row keeps its attributes and relative order.
   */
  lemma MovePlacesRow(t: seq<Row>, d: int, tg: int, asChild: bool)
    requires 0 <= d < |t| && 0 <= tg < |t| && d != tg
    ensures var r := MovedRows(t, d, tg, asChild);
      var p := MovedIndex(d, tg, asChild);
      |r| == |t| && 0 <= p < |r| &&
      r[p].level == t[tg].level + (if asChild then 1 else 0) &&
      r[p].parent == (if asChild then t[tg].node else t[tg].parent) &&
      r[p].spacer == SpacerStyle(r[p].level - 1) &&
      r[p] == t[d].(parent := r[p].parent, level := r[p].level, spacer := r[p].spacer) &&
      (asChild ==> p > 0 && r[p - 1] == t[tg]) &&
      (!asChild ==> p + 1 < |r| && r[p + 1] == t[tg]) &&
      r[..p] + r[p + 1..] == t[..d] + t[d + 1..]
  {
    var p := MovedIndex(d, tg, asChild);
    var x := PatchedRow(t, d, tg, asChild);
    ReinsertAt(t, d, p, x, p);
    ReinsertKeepsOthers(t, d, p, x);
    if asChild {
      ReinsertAt(t, d, p, x, p - 1);
    } else {
      ReinsertAt(t, d, p, x, p + 1);
    }
  }

  /** The moved row's spacer is exactly what the server would render for a row at its new depth. */
  lemma MoveSpacerMatchesServer(t: seq<Row>, d: int, tg: int, asChild: bool)
    requires 0 <= d < |t| && 0 <= tg < |t| && d != tg
    ensures var row := MovedRows(t, d, tg, asChild)[MovedIndex(d, tg, asChild)];
      GetSpacer(true, row.level) == SpacerSpan(row.spacer)
  {
    var p := MovedIndex(d, tg, asChild);
    ReinsertAt(t, d, p, PatchedRow(t, d, tg, asChild), p);
  }

  /** The success patch keeps the rendered table's invariant. */
  lemma MoveKeepsConsistent(t: seq<Row>, d: int, tg: int, asChild: bool)
    requires 0 <= d < |t| && 0 <= tg < |t| && d != tg
    requires Consistent(t)
    ensures Consistent(MovedRows(t, d, tg, asChild))
  {
    var p := MovedIndex(d, tg, asChild);
    var x := PatchedRow(t, d, tg, asChild);
    var r := MovedRows(t, d, tg, asChild);
    forall k | 0 <= k < |t|
      ensures r[k].node == t[if k == p then d else Origin(d, p, k)].node
      ensures r[k].spacer == SpacerStyle(r[k].level - 1)
      ensures r[k].marker == NoToggle <==> r[k].childrenNum == 0
    {
      ReinsertAt(t, d, p, x, k);
    }
    forall a, b | 0 <= a < |r| && 0 <= b < |r| && r[a].node == r[b].node
      ensures a == b
    {
      ReinsertAt(t, d, p, x, a);
      ReinsertAt(t, d, p, x, b);
      if a != p && b != p && a != b {
        OriginInjective(d, p, a, b);
      }
    }
  }
}
