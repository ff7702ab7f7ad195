/**
 * The `navigation_breadcrumb` template tag (NavigationShowBreadcrumb.get_context):
 * from the menu nodes of the current request, the list of ancestors of the
 * selected node, root first, with the home page node in front and the first
 * `start_level` entries dropped.
 *
 * Menu nodes are given as a sequence; a node is named by its index, and node
 * identity (Python's `!=` on node objects) is index equality. The home node
 * may be absent, so the ancestor list holds `Option<nat>`: the tag appends
 * Python's None when it found no home and collected nothing.
 */
module Breadcrumb {
  import opened Wrappers
  import opened AdminTree
  import opened ParentChains

  /** The values a template argument resolves to, as far as the tag inspects them. */
  datatype PyVal = PInt(i: int) | PBool(b: bool) | PStr(s: string) | PNone

  datatype PyError = TypeError | AttributeError

  /** The three positional arguments of the tag. */
  datatype Args = Args(startLevel: PyVal, template: PyVal, onlyVisible: PyVal)

  const DefaultTemplate := "menu/breadcrumb.html"
  const NoRequestTemplate := "cms/content.html"

  /** `{% navigation_breadcrumb %}` with every argument left at its default. */
  const DefaultArgs := Args(PInt(0), PStr(DefaultTemplate), PBool(true))

  datatype Content = NoContent | PageContent(isHome: bool) | OtherContent

  datatype MenuNode = MenuNode(content: Content, visible: bool, selected: bool)

  datatype Outcome =
    | NoRequest(page: string)
    | Rendered(ancestors: seq<Option<nat>>, template: PyVal)
    | Raised(error: PyError)

  // ---------------------------------------------------------------- arguments

  /** `str.isdigit()`, on ASCII digits. */
  predicate IsDigits(s: string)
  {
    |s| > 0 && forall k :: 0 <= k < |s| ==> '0' <= s[k] <= '9'
  }

  /** `int(s)` on a string: an optional sign followed by decimal digits, else ValueError (None). */
  function ParseInt(s: string): (r: Option<int>)
    ensures IsDigits(s) ==> r == Some(ParseNat(s))
    ensures s == "" ==> r.None?
    ensures r.Some? ==> exists k :: 0 <= k < |s| && '0' <= s[k] <= '9'
  {
    if IsDigits(s) then Some(ParseNat(s))
    else if |s| > 1 && s[0] == '-' && IsDigits(s[1..]) then
      assert '0' <= s[1..][0] <= '9';
      var n: int := ParseNat(s[1..]);
      Some(-n)
    else if |s| > 1 && s[0] == '+' && IsDigits(s[1..]) then
      assert '0' <= s[1..][0] <= '9';
      Some(ParseNat(s[1..]))
    else None
  }

  /** The guard that keeps the arguments in place: an int (a bool is one) or a digit string. */
  predicate LevelLike(v: PyVal)
  {
    v.PInt? || v.PBool? || (v.PStr? && IsDigits(v.s))
  }

  /**
   * A start level that is neither an int nor a digit string was really the
   * template: every argument moves one place to the right and the start
   * level becomes 0. A None start level has no `isdigit` and raises instead,
   * which the caller checks first.
   */
  function Shift(a: Args): (r: Args)
    requires !a.startLevel.PNone?
    ensures LevelLike(a.startLevel) ==> r == a
    ensures !LevelLike(a.startLevel) ==> r == Args(PInt(0), a.startLevel, a.template)
    ensures LevelLike(r.startLevel)
  {
    if LevelLike(a.startLevel) then a else Args(PInt(0), a.startLevel, a.template)
  }

  /** `bool(int(x))`, falling back to `bool(x)` on ValueError; `int(None)` is a TypeError (None here). */
  function OnlyVisible(v: PyVal): (r: Option<bool>)
    ensures r.None? <==> v.PNone?
    ensures v.PInt? ==> r == Some(v.i != 0)
    ensures v.PBool? ==> r == Some(v.b)
    ensures v.PStr? && ParseInt(v.s).Some? ==> r == Some(ParseInt(v.s).value != 0)
    ensures v.PStr? && ParseInt(v.s).None? ==> r == Some(v.s != "")
  {
    match v
    case PInt(i) => Some(i != 0)
    case PBool(b) => Some(b)
    case PStr(s) => if ParseInt(s).Some? then Some(ParseInt(s).value != 0) else Some(|s| > 0)
    case PNone => None
  }

  /** A text that is not a number, such as a template path, counts as a true only_visible. */
  lemma WordIsTrue(s: string)
    requires s != "" && forall k :: 0 <= k < |s| ==> !('0' <= s[k] <= '9')
    ensures OnlyVisible(PStr(s)) == Some(true)
  {
  }

  /**
   * `{% navigation_breadcrumb "some/template.html" %}`: the template moves into
   * place, only_visible receives the default template path and so stays true,
   * and the start level is 0.
   */
  lemma ShiftedTemplateArgument(t: string)
    requires t != "" && forall k :: 0 <= k < |t| ==> !('0' <= t[k] <= '9')
    ensures var a := Shift(Args(PStr(t), PStr(DefaultTemplate), PBool(true)));
      a.startLevel == PInt(0) && a.template == PStr(t) && OnlyVisible(a.onlyVisible) == Some(true)
  {
    assert !('0' <= t[0] <= '9');
    WordIsTrue(DefaultTemplate);
  }

  // ---------------------------------------------------------------- home and selected

  predicate IsHome(n: MenuNode)
  {
    n.content.PageContent? && n.content.isHome
  }

  function HomeFlags(nodes: seq<MenuNode>): (f: seq<bool>)
    ensures |f| == |nodes| && forall k :: 0 <= k < |f| ==> (f[k] <==> IsHome(nodes[k]))
  {
    seq(|nodes|, k requires 0 <= k < |nodes| => IsHome(nodes[k]))
  }

  function SelectedFlags(nodes: seq<MenuNode>): (f: seq<bool>)
    ensures |f| == |nodes| && forall k :: 0 <= k < |f| ==> f[k] == nodes[k].selected
  {
    seq(|nodes|, k requires 0 <= k < |nodes| => nodes[k].selected)
  }

  /** The first index from `i` on whose flag is set: a `for ... break` scan, or `next(...)` over a generator. */
  function FirstFrom(f: seq<bool>, i: nat): (r: Option<nat>)
    requires i <= |f|
    ensures r.Some? ==> i <= r.value < |f| && f[r.value] && forall k :: i <= k < r.value ==> !f[k]
    ensures r.None? ==> forall k :: i <= k < |f| ==> !f[k]
    decreases |f| - i
  {
    if i == |f| then None else if f[i] then Some(i) else FirstFrom(f, i + 1)
  }

  function Home(nodes: seq<MenuNode>): Option<nat>
  {
    FirstFrom(HomeFlags(nodes), 0)
  }

  function Selected(nodes: seq<MenuNode>): Option<nat>
  {
    FirstFrom(SelectedFlags(nodes), 0)
  }

  // ---------------------------------------------------------------- the walk up

  /** A node is collected when it has content and is visible, or when invisible nodes are wanted too. */
  predicate Kept(n: MenuNode, onlyVisible: bool)
  {
    (n.content != NoContent && n.visible) || !onlyVisible
  }

  /** The nodes collected walking from i up the parent links, nearest first, for at most `fuel` nodes. */
  function Collect(nodes: seq<MenuNode>, parents: Links, i: nat, onlyVisible: bool, fuel: nat): (r: seq<Option<nat>>)
    requires |parents| == |nodes| && InRange(parents) && i < |nodes|
    ensures forall k :: 0 <= k < |r| ==> r[k].Some? && r[k].value < |nodes|
    ensures fuel > 0 && Kept(nodes[i], onlyVisible) ==> |r| > 0 && r[0] == Some(i)
    decreases fuel
  {
    if fuel == 0 then []
    else
      (if Kept(nodes[i], onlyVisible) then [Some(i)] else []) +
      (if parents[i].None? then [] else Collect(nodes, parents, parents[i].value, onlyVisible, fuel - 1))
  }

  /** A node is collected exactly when it lies on the selected node's parent chain and passes the visibility rule. */
  lemma {:induction false} CollectMembers(nodes: seq<MenuNode>, parents: Links, i: nat, onlyVisible: bool, fuel: nat, x: nat)
    requires |parents| == |nodes| && InRange(parents) && i < |nodes|
    ensures Some(x) in Collect(nodes, parents, i, onlyVisible, fuel) <==>
            x in Chain(parents, i, fuel) && Kept(nodes[x], onlyVisible)
    decreases fuel
  {
    if fuel > 0 && parents[i].Some? {
      CollectMembers(nodes, parents, parents[i].value, onlyVisible, fuel - 1, x);
    }
  }

  /** `if not ancestors or (ancestors and ancestors[-1] != home) and home: ancestors.append(home)` */
  function AppendHome(anc: seq<Option<nat>>, home: Option<nat>): (r: seq<Option<nat>>)
    ensures r == anc || r == anc + [home]
    ensures anc == [] ==> r == [home]
    ensures home.Some? ==> |r| > 0 && r[|r| - 1] == home
    ensures home.None? && anc != [] ==> r == anc
    ensures anc != [] && anc[|anc| - 1] == home ==> r == anc
  {
    if anc == [] || (anc[|anc| - 1] != home && home.Some?) then anc + [home] else anc
  }

  /** `list.reverse()` */
  function Reverse<T>(s: seq<T>): (r: seq<T>)
    ensures |r| == |s| && forall k :: 0 <= k < |s| ==> r[k] == s[|s| - 1 - k]
    decreases |s|
  {
    if s == [] then [] else [s[|s| - 1]] + Reverse(s[..|s| - 1])
  }

  /** `s[k:]` with Python's reading of a negative k as counted from the end. */
  function SliceFrom<T>(s: seq<T>, k: int): seq<T>
  {
    if k >= |s| then []
    else if k >= 0 then s[k..]
    else if |s| + k >= 0 then s[|s| + k..]
    else s
  }

  /** `ancestors[start_level:] if len(ancestors) >= start_level else []` */
  function DropLevels<T>(anc: seq<T>, level: int): (r: seq<T>)
    ensures 0 <= level <= |anc| ==> r == anc[level..]
    ensures level > |anc| ==> r == []
    ensures level < 0 ==> |r| == (if -level < |anc| then -level else |anc|) && r == anc[|anc| - |r|..]
  {
    if |anc| >= level then SliceFrom(anc, level) else []
  }

  /** The ancestor list before the start level is applied: home first, the selected node last. */
  function Ancestors(nodes: seq<MenuNode>, parents: Links, onlyVisible: bool): seq<Option<nat>>
    requires |parents| == |nodes| && InRange(parents)
  {
    var home, sel := Home(nodes), Selected(nodes);
    var walked := if sel.Some? && sel != home then Collect(nodes, parents, sel.value, onlyVisible, |nodes|) else [];
    Reverse(AppendHome(walked, home))
  }

  // ---------------------------------------------------------------- the tag

  /** The start level as the code uses it: `len(ancestors) >= "1"` raises TypeError. */
  function LevelAsWritten(v: PyVal): Option<int>
  {
    match v
    case PInt(i) => Some(i)
    case PBool(b) => Some(if b then 1 else 0)
    case PStr(_) => None
    case PNone => None
  }

  /** The start level as the isdigit() guard means it: a digit string is its number. */
  function LevelFixed(v: PyVal): Option<int>
  {
    match v
    case PInt(i) => Some(i)
    case PBool(b) => Some(if b then 1 else 0)
    case PStr(s) => if IsDigits(s) then Some(ParseNat(s)) else None
    case PNone => None
  }

  /** get_context with a given reading of the start level. */
  function Breadcrumb(hasRequest: bool, args: Args, nodes: seq<MenuNode>, parents: Links, fixedLevel: bool): (r: Outcome)
    requires |parents| == |nodes| && Forest(parents)
    ensures !hasRequest <==> r == NoRequest(NoRequestTemplate)
    ensures hasRequest && args.startLevel.PNone? ==> r == Raised(AttributeError)
    ensures r.Rendered? ==> r.template == Shift(args).template
  {
    if !hasRequest then NoRequest(NoRequestTemplate)
    else if args.startLevel.PNone? then Raised(AttributeError)
    else
      var a := Shift(args);
      match OnlyVisible(a.onlyVisible)
      case None => Raised(TypeError)
      case Some(ov) =>
        var level := if fixedLevel then LevelFixed(a.startLevel) else LevelAsWritten(a.startLevel);
        if level.None? then Raised(TypeError)
        else Rendered(DropLevels(Ancestors(nodes, parents, ov), level.value), a.template)
  }

  /** NavigationShowBreadcrumb.get_context exactly as written. */
  function BreadcrumbAsWritten(hasRequest: bool, args: Args, nodes: seq<MenuNode>, parents: Links): Outcome
    requires |parents| == |nodes| && Forest(parents)
  {
    Breadcrumb(hasRequest, args, nodes, parents, false)
  }

  /** get_context with a digit-string start level read as its number. */
  function BreadcrumbFixed(hasRequest: bool, args: Args, nodes: seq<MenuNode>, parents: Links): Outcome
    requires |parents| == |nodes| && Forest(parents)
  {
    Breadcrumb(hasRequest, args, nodes, parents, true)
  }

  /** The home scan: a for loop that breaks at the first home page node. */
  method FindHome(nodes: seq<MenuNode>) returns (home: Option<nat>)
    ensures home == Home(nodes)
    ensures home.Some? ==> home.value < |nodes| && IsHome(nodes[home.value])
    ensures home.None? ==> forall k :: 0 <= k < |nodes| ==> !IsHome(nodes[k])
  {
    ghost var homeFlags := HomeFlags(nodes);
    home := None;
    var i := 0;
    while i < |nodes|
      invariant 0 <= i <= |nodes|
      invariant home.None? && FirstFrom(homeFlags, i) == Home(nodes)
    {
      if IsHome(nodes[i]) {
        home := Some(i);
        return;
      }
      i := i + 1;
    }
  }

  /** The walk from the selected node up the parent links, appending every node that passes the visibility rule. */
  method WalkUp(nodes: seq<MenuNode>, parents: Links, selected: nat, onlyVisible: bool) returns (ancestors: seq<Option<nat>>)
    requires |parents| == |nodes| && InRange(parents) && selected < |nodes| && Ends(parents, selected, |nodes|)
    ensures ancestors == Collect(nodes, parents, selected, onlyVisible, |nodes|)
  {
    ghost var fuel: nat := |nodes|;
    ancestors := [];
    var node: Option<nat> := Some(selected);
    while node.Some?
      invariant node.Some? ==> node.value < |nodes| && Ends(parents, node.value, fuel)
      invariant ancestors + (if node.Some? then Collect(nodes, parents, node.value, onlyVisible, fuel) else []) ==
                Collect(nodes, parents, selected, onlyVisible, |nodes|)
      decreases fuel
    {
      var i := node.value;
      ghost var rest := if parents[i].None? then [] else Collect(nodes, parents, parents[i].value, onlyVisible, fuel - 1);
      if (nodes[i].content != NoContent && nodes[i].visible) || !onlyVisible {
        assert Collect(nodes, parents, i, onlyVisible, fuel) == [Some(i)] + rest;
        assert ancestors + ([Some(i)] + rest) == (ancestors + [Some(i)]) + rest;
        ancestors := ancestors + [Some(i)];
      } else {
        assert Collect(nodes, parents, i, onlyVisible, fuel) == rest;
      }
      node := parents[i];
      fuel := fuel - 1;
    }
  }

  /** `ancestors.reverse()` */
  method ReverseList(ancestors: seq<Option<nat>>) returns (reversed: seq<Option<nat>>)
    ensures reversed == Reverse(ancestors)
    ensures |reversed| == |ancestors| && forall k :: 0 <= k < |ancestors| ==> reversed[k] == ancestors[|ancestors| - 1 - k]
  {
    reversed := [];
    for k := 0 to |ancestors|
      invariant reversed == Reverse(ancestors[..k])
    {
      assert ancestors[..k + 1][..k] == ancestors[..k];
      reversed := [ancestors[k]] + reversed;
    }
    assert ancestors[..|ancestors|] == ancestors;
  }

  /**
   * The tag's steps with the corrected start level (a digit string read as
   * its number): read the arguments, find home and the selected node, walk
   * up, add home, reverse, slice.
   */
  method GetContext(hasRequest: bool, args: Args, nodes: seq<MenuNode>, parents: Links) returns (r: Outcome)
    requires |parents| == |nodes| && Forest(parents)
    ensures r == BreadcrumbFixed(hasRequest, args, nodes, parents)
  {
    if !hasRequest {
      return NoRequest(NoRequestTemplate);
    }
    if args.startLevel.PNone? {
      return Raised(AttributeError);
    }
    var a := Shift(args);
    var ov := OnlyVisible(a.onlyVisible);
    if ov.None? {
      return Raised(TypeError);
    }
    var home := FindHome(nodes);
    var selected := Selected(nodes);
    var ancestors: seq<Option<nat>> := [];
    if selected.Some? && selected != home {
      ancestors := WalkUp(nodes, parents, selected.value, ov.value);
    }
    ghost var walked := ancestors;
    if ancestors == [] || (ancestors[|ancestors| - 1] != home && home.Some?) {
      ancestors := ancestors + [home];
    }
    assert ancestors == AppendHome(walked, home);
    ancestors := ReverseList(ancestors);
    assert ancestors == Ancestors(nodes, parents, ov.value);
    var level := LevelFixed(a.startLevel);
    if level.None? {
      return Raised(TypeError);
    }
    if |ancestors| >= level.value {
      ancestors := SliceFrom(ancestors, level.value);
    } else {
      ancestors := [];
    }
    return Rendered(ancestors, a.template);
  }

  // ---------------------------------------------------------------- properties

  /** Whenever there is a home page node, it heads the unsliced breadcrumb. */
  lemma HomeComesFirst(nodes: seq<MenuNode>, parents: Links, onlyVisible: bool)
    requires |parents| == |nodes| && InRange(parents) && Home(nodes).Some?
    ensures var anc := Ancestors(nodes, parents, onlyVisible); |anc| > 0 && anc[0] == Home(nodes)
  {
  }

  /** A selected node that is not home and passes the visibility rule ends the unsliced breadcrumb. */
  lemma SelectedComesLast(nodes: seq<MenuNode>, parents: Links, onlyVisible: bool)
    requires |parents| == |nodes| && InRange(parents)
    requires Selected(nodes).Some? && Selected(nodes) != Home(nodes)
    requires Kept(nodes[Selected(nodes).value], onlyVisible)
    ensures var anc := Ancestors(nodes, parents, onlyVisible); |anc| > 0 && anc[|anc| - 1] == Selected(nodes)
  {
    var sel := Selected(nodes).value;
    var walked := Collect(nodes, parents, sel, onlyVisible, |nodes|);
    var appended := AppendHome(walked, Home(nodes));
    assert appended[0] == walked[0];
  }

  /**
   * With a home page node, the unsliced breadcrumb holds home and exactly the
   * nodes on the selected node's parent chain that pass the visibility rule
   * (none when home itself is selected).
   */
  lemma AncestorMembers(nodes: seq<MenuNode>, parents: Links, onlyVisible: bool, x: nat)
    requires |parents| == |nodes| && InRange(parents) && Home(nodes).Some?
    ensures var sel := Selected(nodes);
      Some(x) in Ancestors(nodes, parents, onlyVisible) <==>
        Some(x) == Home(nodes) ||
        (sel.Some? && sel != Home(nodes) && x in Chain(parents, sel.value, |nodes|) && Kept(nodes[x], onlyVisible))
  {
    var home, sel := Home(nodes), Selected(nodes);
    var walked := if sel.Some? && sel != home then Collect(nodes, parents, sel.value, onlyVisible, |nodes|) else [];
    var appended := AppendHome(walked, home);
    var anc := Reverse(appended);
    assert Some(x) in anc <==> Some(x) in appended by {
      if Some(x) in anc {
        var k :| 0 <= k < |anc| && anc[k] == Some(x);
        assert appended[|appended| - 1 - k] == Some(x);
      }
      if Some(x) in appended {
        var k :| 0 <= k < |appended| && appended[k] == Some(x);
        assert anc[|appended| - 1 - k] == Some(x);
      }
    }
    if sel.Some? && sel != home {
      CollectMembers(nodes, parents, sel.value, onlyVisible, |nodes|, x);
    }
  }

  /** Without a home page node and with nothing collected, the breadcrumb is the single entry None. */
  lemma NoHomeNothingCollected(nodes: seq<MenuNode>, parents: Links, onlyVisible: bool)
    requires |parents| == |nodes| && InRange(parents) && Home(nodes).None? && Selected(nodes).None?
    ensures Ancestors(nodes, parents, onlyVisible) == [None]
  {
  }

  /** Raising the start level by one drops one more entry from the root end, until the list is empty. */
  lemma StartLevelDropsFromRoot(anc: seq<Option<nat>>, level: nat)
    requires level < |anc|
    ensures DropLevels(anc, level + 1) == DropLevels(anc, level)[1..]
  {
  }

  // ---------------------------------------------------------------- the finding

  /**
   * The guard lets a digit string through as a start level, and the comparison
   * `len(ancestors) >= "1"` then raises, while the number 1 renders.
   */
  lemma DigitStartLevelRaises(nodes: seq<MenuNode>, parents: Links)
    requires |parents| == |nodes| && Forest(parents)
    ensures BreadcrumbAsWritten(true, Args(PStr("1"), PStr(DefaultTemplate), PBool(true)), nodes, parents) == Raised(TypeError)
    ensures BreadcrumbAsWritten(true, Args(PInt(1), PStr(DefaultTemplate), PBool(true)), nodes, parents).Rendered?
  {
    assert IsDigits("1");
  }

  /** With the fix, a digit-string start level behaves exactly like its number. */
  lemma FixedDigitStartLevel(hasRequest: bool, s: string, template: PyVal, onlyVisible: PyVal, nodes: seq<MenuNode>, parents: Links)
    requires |parents| == |nodes| && Forest(parents) && IsDigits(s)
    ensures BreadcrumbFixed(hasRequest, Args(PStr(s), template, onlyVisible), nodes, parents) ==
            BreadcrumbAsWritten(hasRequest, Args(PInt(ParseNat(s)), template, onlyVisible), nodes, parents)
  {
  }

  /** The fix changes nothing else: wherever the code as written does not raise on the start level, both agree. */
  lemma FixedAgreesElsewhere(hasRequest: bool, args: Args, nodes: seq<MenuNode>, parents: Links)
    requires |parents| == |nodes| && Forest(parents)
    requires !(args.startLevel.PStr? && IsDigits(args.startLevel.s))
    ensures BreadcrumbFixed(hasRequest, args, nodes, parents) == BreadcrumbAsWritten(hasRequest, args, nodes, parents)
  {
  }

  /** With the fix, the start level never raises: a rendered result is reached whenever only_visible can be read. */
  lemma FixedNeverRaisesOnLevel(args: Args, nodes: seq<MenuNode>, parents: Links)
    requires |parents| == |nodes| && Forest(parents) && !args.startLevel.PNone?
    requires OnlyVisible(Shift(args).onlyVisible).Some?
    ensures BreadcrumbFixed(true, args, nodes, parents).Rendered?
  {
  }
}
