/**
 * The persisted expansion list of the tree widget script: the sessionStorage
 * entry `'expanded-' + menuContentId`, a JSON array of row element ids, which
 * toggle() appends to or filters, collapse_all()/expand_all() wipe, and the
 * page-load handler replays.
 */
module TreeSession {
  import opened Wrappers
  import opened AdminTree
  import opened TreeRows

  /** sessionStorage, with every value a parsed JSON array of element ids. */
  type Storage = map<string, seq<string>>

  const ExpandedSessionKey := "expanded-"

  function ExpandedKey(menuContentId: string): string
  {
    ExpandedSessionKey + menuContentId
  }

  /** `JSON.parse(sessionStorage.getItem(key)) || []` */
  function Stored(s: Storage, key: string): seq<string>
  {
    if key in s then s[key] else []
  }

  /** Array.prototype.filter keeping the ids not in `drop`, in order. */
  function Omit(ids: seq<string>, drop: set<string>): (r: seq<string>)
    ensures |r| <= |ids|
    ensures forall x :: x in r <==> x in ids && x !in drop
    decreases |ids|
  {
    if ids == [] then []
    else (if ids[0] in drop then [] else [ids[0]]) + Omit(ids[1..], drop)
  }

  /** Filtering twice is filtering once by both sets: the order of the filters in remove_from_session does not matter. */
  lemma {:induction false} OmitTwice(ids: seq<string>, a: set<string>, b: set<string>)
    ensures Omit(Omit(ids, a), b) == Omit(ids, a + b)
    decreases |ids|
  {
    if ids != [] {
      OmitTwice(ids[1..], a, b);
      if ids[0] in a {
        assert Omit(ids, a) == Omit(ids[1..], a);
      } else {
        assert Omit(ids, a) == [ids[0]] + Omit(ids[1..], a);
        assert Omit(ids, a)[1..] == Omit(ids[1..], a);
      }
    }
  }

  /** Ids of the rows whose `parent` attribute is n, among the first `upTo` rows. */
  function ChildIdsBefore(t: seq<Row>, n: string, upTo: int): set<string>
  {
    set j | 0 <= j < |t| && j < upTo && t[j].parent == n :: t[j].elemId
  }

  /** Ids of the direct children of node n: `$('tr[parent=' + n + ']')`. */
  function ChildIds(t: seq<Row>, n: string): set<string>
  {
    ChildIdsBefore(t, n, |t|)
  }

  /** add_to_session: append the row's id, even if it is already there. */
  function SessionAfterAdd(s: Storage, key: string, id: string): (r: Storage)
    ensures Stored(r, key) == Stored(s, key) + [id]
    ensures |Stored(r, key)| == |Stored(s, key)| + 1
    ensures forall k :: k != key ==> (k in r <==> k in s) && (k in s ==> r[k] == s[k])
  {
    s[key := Stored(s, key) + [id]]
  }

  /** What remove_from_session drops: the row's own id and, when its children-num is positive, its direct children's ids. */
  function RemovedIds(t: seq<Row>, r: int): set<string>
    requires 0 <= r < |t|
  {
    {t[r].elemId} + (if t[r].childrenNum > 0 then ChildIds(t, t[r].node) else {})
  }

  /** remove_from_session on row r. */
  function SessionAfterRemove(s: Storage, key: string, t: seq<Row>, r: int): (res: Storage)
    requires 0 <= r < |t|
    ensures key in res && Stored(res, key) == Omit(Stored(s, key), RemovedIds(t, r))
    ensures t[r].elemId !in Stored(res, key)
    ensures t[r].childrenNum > 0 ==> forall c :: 0 <= c < |t| && t[c].parent == t[r].node ==> t[c].elemId !in Stored(res, key)
    ensures forall x :: x in Stored(s, key) && x !in RemovedIds(t, r) ==> x in Stored(res, key)
    ensures forall k :: k != key ==> (k in res <==> k in s) && (k in s ==> res[k] == s[k])
  {
    s[key := Omit(Stored(s, key), RemovedIds(t, r))]
  }

  /** The ids remove_from_session drops depend only on ids and parent links, which the walks keep. */
  lemma RemovedIdsOfShape(t: seq<Row>, u: seq<Row>, r: int)
    requires 0 <= r < |t| && Shape(t) == Shape(u)
    ensures RemovedIds(t, r) == RemovedIds(u, r)
  {
    assert |t| == |Shape(t)| == |Shape(u)| == |u|;
    assert forall j :: 0 <= j < |t| ==> t[j].elemId == Shape(t)[j].elemId == u[j].elemId;
    assert forall j :: 0 <= j < |t| ==> t[j].parent == Shape(t)[j].parent == u[j].parent;
    assert t[r].node == Shape(t)[r].node == u[r].node;
    assert t[r].childrenNum == Shape(t)[r].childrenNum == u[r].childrenNum;
  }

  /**
   * The quirk of remove_from_session: only direct children are dropped. A
   * grandchild that was stored stays stored after its grandparent collapses.
   */
  lemma GrandchildSurvivesRemove(s: Storage, key: string, t: seq<Row>, r: int, c: int, g: int)
    requires 0 <= r < |t| && 0 <= c < |t| && 0 <= g < |t|
    requires t[c].parent == t[r].node && t[g].parent == t[c].node
    requires forall j :: 0 <= j < |t| && t[j].elemId == t[g].elemId ==> j == g
    requires g != r && t[g].parent != t[r].node
    requires t[g].elemId in Stored(s, key)
    ensures t[g].elemId in Stored(SessionAfterRemove(s, key, t, r), key)
  {
    assert t[g].elemId !in ChildIds(t, t[r].node);
    assert t[g].elemId !in RemovedIds(t, r);
  }

  /** jQuery `$.find('#' + id)[0]`: the first row with that element id. */
  function FindElem(t: seq<Row>, id: string): (r: Option<nat>)
    ensures r.Some? ==> r.value < |t| && t[r.value].elemId == id
    ensures r.None? ==> forall k :: 0 <= k < |t| ==> t[k].elemId != id
    decreases |t|
  {
    if |t| == 0 then None
    else if t[|t| - 1].elemId == id && FindElem(t[..|t| - 1], id).None? then Some(|t| - 1)
    else FindElem(t[..|t| - 1], id)
  }

  /** The row element FindElem finds depends only on ids, which the walks keep. */
  lemma FindElemOfShape(t: seq<Row>, u: seq<Row>, id: string)
    requires Shape(t) == Shape(u)
    ensures FindElem(t, id) == FindElem(u, id)
    decreases |t|
  {
    assert |t| == |Shape(t)| == |Shape(u)| == |u|;
    if |t| > 0 {
      var t', u' := t[..|t| - 1], u[..|u| - 1];
      assert Shape(t') == Shape(t)[..|t| - 1] == Shape(u)[..|u| - 1] == Shape(u');
      FindElemOfShape(t', u', id);
      assert t[|t| - 1].elemId == Shape(t)[|t| - 1].elemId == u[|u| - 1].elemId;
    }
  }

  /** One stored id on page load: expand() that row and force its marker open; an id no row has yields jQuery's empty Node. */
  function RestoreOne(t: seq<Row>, id: string): (r: seq<Row>)
    ensures |r| == |t| && Shape(r) == Shape(t)
  {
    match FindElem(t, id)
    case Some(i) =>
      var u := ExpandRows(t, t[i].node, |t|);
      var r := u[i := u[i].(marker := ForceMarker(u[i].marker, Expanded))];
      assert Shape(r) == Shape(u);
      r
    case None => ExpandRows(t, UndefinedId, |t|)
  }

  /** The stored ids replayed in list order. */
  function RestoreAll(t: seq<Row>, ids: seq<string>): (r: seq<Row>)
    ensures |r| == |t| && Shape(r) == Shape(t)
    decreases |ids|
  {
    if ids == [] then t else RestoreOne(RestoreAll(t, ids[..|ids| - 1]), ids[|ids| - 1])
  }

  /** The page-load handler: an absent entry changes nothing. */
  function RestoreOnLoad(t: seq<Row>, s: Storage, key: string): seq<Row>
  {
    if key in s then RestoreAll(t, s[key]) else t
  }

  /** Replaying the list never hides a row. */
  lemma {:induction false} RestoreOnlyShows(t: seq<Row>, ids: seq<string>, j: int)
    requires 0 <= j < |t| && t[j].visible
    ensures RestoreAll(t, ids)[j].visible
    decreases |ids|
  {
    if ids != [] {
      RestoreOnlyShows(t, ids[..|ids| - 1], j);
    }
  }

  /**
   * After the page-load replay, every row named in the list has all its direct
   * children shown and, when it has a toggle, its marker set to expanded.
   */
  lemma {:induction false} RestoreOpensListedRows(t: seq<Row>, ids: seq<string>, k: int)
    requires 0 <= k < |ids| && FindElem(t, ids[k]).Some?
    ensures var i := FindElem(t, ids[k]).value;
      var r := RestoreAll(t, ids);
      r[i].marker == ForceMarker(t[i].marker, Expanded) &&
      forall c :: 0 <= c < |t| && t[c].parent == t[i].node ==> r[c].visible
    decreases |ids|
  {
    var i := FindElem(t, ids[k]).value;
    var front := ids[..|ids| - 1];
    var before := RestoreAll(t, front);
    assert Shape(before) == Shape(t);
    FindElemOfShape(before, t, ids[k]);
    assert before[i].node == Shape(before)[i].node == t[i].node;
    assert forall c :: 0 <= c < |t| ==> before[c].parent == Shape(before)[c].parent == t[c].parent;
    if k < |ids| - 1 {
      assert front[k] == ids[k];
      RestoreOpensListedRows(t, front, k);
      forall c | 0 <= c < |t| && t[c].parent == t[i].node
        ensures RestoreAll(t, ids)[c].visible
      {
        RestoreStepShows(before, ids[|ids| - 1], c);
      }
      RestoreStepMarker(before, ids[|ids| - 1], i);
    } else {
      assert Markers(before)[i] == before[i].marker;
      RestoreMarkerUnchanged(t, front, i);
    }
  }

  /** One replay step never hides a row. */
  lemma RestoreStepShows(t: seq<Row>, id: string, c: int)
    requires 0 <= c < |t| && t[c].visible
    ensures RestoreOne(t, id)[c].visible
  {
  }

  /** One replay step keeps an already forced-open marker open. */
  lemma RestoreStepMarker(t: seq<Row>, id: string, i: int)
    requires 0 <= i < |t| && t[i].marker == ForceMarker(t[i].marker, Expanded)
    ensures RestoreOne(t, id)[i].marker == t[i].marker
  {
  }

  /** A marker is only ever forced open by the replay. */
  lemma {:induction false} RestoreMarkerUnchanged(t: seq<Row>, ids: seq<string>, i: int)
    requires 0 <= i < |t|
    ensures RestoreAll(t, ids)[i].marker == t[i].marker ||
            RestoreAll(t, ids)[i].marker == ForceMarker(t[i].marker, Expanded)
    decreases |ids|
  {
    if ids != [] {
      RestoreMarkerUnchanged(t, ids[..|ids| - 1], i);
    }
  }
}
