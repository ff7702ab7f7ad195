/**
 * The changelist markup rendered by djangocms_navigation/templatetags/navigation_admin_tree.py.
 * The spacer style and the toggle marker it renders are the attributes the tree
 * widget script reads back and re-applies, so they are defined here once.
 */
module AdminTree {

  /** The marker class on a row's toggle control: an `a.collapse` carrying
      `collapsed` or `expanded`, or a bare `span.collapse` with no marker. */
  datatype Marker = Collapsed | Expanded | NoToggle

  function DigitChar(d: nat): char
    requires d < 10
  {
    "0123456789"[d]
  }

  /** Decimal rendering of a natural number, as Python's str() and JavaScript's template literals print it. */
  function NatToString(n: nat): (s: string)
    ensures |s| > 0
    ensures forall k :: 0 <= k < |s| ==> '0' <= s[k] <= '9'
    decreases n
  {
    if n < 10 then [DigitChar(n)] else NatToString(n / 10) + [DigitChar(n % 10)]
  }

  function DigitValue(c: char): nat
    requires '0' <= c <= '9'
  {
    c as nat - '0' as nat
  }

  /** Reads back a string of decimal digits. */
  function ParseNat(s: string): nat
    requires forall k :: 0 <= k < |s| ==> '0' <= s[k] <= '9'
    decreases |s|
  {
    if |s| == 0 then 0 else ParseNat(s[..|s| - 1]) * 10 + DigitValue(s[|s| - 1])
  }

  /** The decimal rendering loses nothing: reading it back gives the number. */
  lemma {:induction false} NatToStringRoundTrip(n: nat)
    ensures ParseNat(NatToString(n)) == n
    decreases n
  {
    if n >= 10 {
      var s := NatToString(n);
      NatToStringRoundTrip(n / 10);
      assert s[..|s| - 1] == NatToString(n / 10);
      assert DigitValue(s[|s| - 1]) == n % 10;
    }
  }

  function IntToString(i: int): string
  {
    if i < 0 then "-" + NatToString(-i) else NatToString(i)
  }

  /** Two different widths never render the same text. */
  lemma NatToStringInjective(a: nat, b: nat)
    requires NatToString(a) == NatToString(b)
    ensures a == b
  {
    NatToStringRoundTrip(a);
    NatToStringRoundTrip(b);
  }

  /** A negative number renders with a leading '-', a natural one with a leading digit. */
  lemma SignDiffers(a: int, b: nat)
    requires a < 0
    ensures IntToString(a) != IntToString(b)
  {
    assert IntToString(a)[0] == '-';
    assert '0' <= IntToString(b)[0] <= '9';
  }

  lemma IntToStringInjective(a: int, b: int)
    requires IntToString(a) == IntToString(b)
    ensures a == b
  {
    var sa, sb := IntToString(a), IntToString(b);
    if a < 0 && b < 0 {
      assert sa[1..] == NatToString(-a);
      assert sb[1..] == NatToString(-b);
      NatToStringInjective(-a, -b);
    } else if a >= 0 && b >= 0 {
      NatToStringInjective(a, b);
    } else {
      if a < 0 { SignDiffers(a, b); } else { SignDiffers(b, a); }
      assert false;
    }
  }

  /** The style attribute of a row's `span.spacer`: its indentation width. */
  function SpacerStyle(width: int): string
  {
    "--s-width:" + IntToString(width)
  }

  /** Equal spacer styles mean equal indentation. */
  lemma SpacerStyleInjective(a: int, b: int)
    requires SpacerStyle(a) == SpacerStyle(b)
    ensures a == b
  {
    var p := "--s-width:";
    assert IntToString(a) == SpacerStyle(a)[|p|..];
    assert IntToString(b) == SpacerStyle(b)[|p|..];
    IntToStringInjective(a, b);
  }

  function SpacerSpan(style: string): string
  {
    "<span class=\"spacer\" style=\"" + style + "\">&nbsp;</span>"
  }

  /** A list_display entry: a callable (named by its __name__) or a field name. */
  datatype FieldRef = CallableField(funcName: string) | NamedField(name: string)

  /** get_field_name: the __name__ of a callable, otherwise the value itself. */
  function GetFieldName(f: FieldRef): (r: string)
    ensures f.CallableField? ==> r == f.funcName
    ensures f.NamedField? ==> r == f.name
  {
    match f
    case CallableField(n) => n
    case NamedField(n) => n
  }

  /** get_spacer: only the first column is indented, by depth - 1 steps. */
  function GetSpacer(first: bool, depth: int): (r: string)
    ensures first ==> r == SpacerSpan(SpacerStyle(depth - 1))
    ensures !first ==> r == ""
  {
    if first then SpacerSpan(SpacerStyle(depth - 1)) else ""
  }

  const CollapsedToggle := "<a href=\"#\" title=\"\" class=\"collapse collapsed\">-</a>"
  const ExpandedToggle := "<a href=\"#\" title=\"\" class=\"collapse expanded\">-</a>"
  const BlankToggle := "<span class=\"collapse\">&nbsp;</span>"

  /** The marker a freshly rendered row carries: only the first level is open. */
  function RenderedMarker(childrenCount: nat, depth: int): (m: Marker)
    ensures m == NoToggle <==> childrenCount == 0
    ensures m == Collapsed <==> childrenCount > 0 && depth > 1
    ensures m == Expanded <==> childrenCount > 0 && depth <= 1
  {
    if childrenCount > 0 then (if depth > 1 then Collapsed else Expanded) else NoToggle
  }

  function ToggleMarkup(m: Marker): string
  {
    match m
    case Collapsed => CollapsedToggle
    case Expanded => ExpandedToggle
    case NoToggle => BlankToggle
  }

  /** get_collapse: the toggle control of a row with `childrenCount` children at `depth`. */
  function GetCollapse(childrenCount: nat, depth: int): (r: string)
    ensures childrenCount > 0 && depth > 1 ==> r == CollapsedToggle
    ensures childrenCount > 0 && depth <= 1 ==> r == ExpandedToggle
    ensures childrenCount == 0 ==> r == BlankToggle
    ensures r == ToggleMarkup(RenderedMarker(childrenCount, depth))
  {
    if childrenCount > 0 then
      if depth > 1 then CollapsedToggle else ExpandedToggle
    else
      BlankToggle
  }

  /** A column header dict of the changelist. */
  datatype Header = Header(text: string, sortable: bool, url: string, tooltip: string, classAttrib: string)

  function ExpandAllHeader(requestPath: string): Header
  {
    Header("+", true, requestPath, "Toggle expand/collapse all", " class=\"expand-all\"")
  }

  /** Python's list.insert(i, x) for 0 <= i: an index past the end appends. */
  function InsertAt<T>(s: seq<T>, i: nat, x: T): seq<T>
  {
    if i <= |s| then s[..i] + [x] + s[i..] else s + [x]
  }

  datatype TreeContext = TreeContext(filtered: bool, headers: seq<Header>)

  /**
   * result_tree: the expand-all header goes in front of the first real column,
   * which is column 1 when the checkbox column is shown. `getIsEmpty` is
   * treebeard's check_empty_dict(request.GET), which is not part of this model.
   */
  function ResultTree(headers: seq<Header>, needsCheckboxes: bool, requestPath: string, getIsEmpty: bool): (r: TreeContext)
    ensures r.filtered == !getIsEmpty
    ensures |r.headers| == |headers| + 1
    ensures var at := if needsCheckboxes && |headers| >= 1 then 1 else 0;
            r.headers[at] == ExpandAllHeader(requestPath) &&
            r.headers[..at] + r.headers[at + 1..] == headers
  {
    var hs := InsertAt(headers, if needsCheckboxes then 1 else 0, ExpandAllHeader(requestPath));
    assert needsCheckboxes && |headers| >= 1 ==> hs[..1] + hs[2..] == headers;
    TreeContext(!getIsEmpty, hs)
  }
}
