/**
 * Parent links of a tree given as a sequence: entry i is the index of node
 * i's parent, or None for a top node. Both the breadcrumb tag and
 * get_root_node walk these links upward until a node without a parent.
 */
module ParentChains {
  import opened Wrappers

  type Links = seq<Option<nat>>

  /** Every link points at a node of the sequence. */
  predicate InRange(p: Links)
  {
    forall i :: 0 <= i < |p| && p[i].Some? ==> p[i].value < |p|
  }

  /** Walking up from i reaches a node without a parent within `fuel` steps. */
  predicate Ends(p: Links, i: nat, fuel: nat)
    requires InRange(p) && i < |p|
    decreases fuel
  {
    fuel > 0 && (p[i].None? || Ends(p, p[i].value, fuel - 1))
  }

  /** The links form a forest: every upward walk ends, and so needs no more steps than there are nodes. */
  predicate Forest(p: Links)
  {
    InRange(p) && forall i :: 0 <= i < |p| ==> Ends(p, i, |p|)
  }

  /** i, its parent, its grandparent, ... up to the top node, for at most `fuel` nodes. */
  function Chain(p: Links, i: nat, fuel: nat): (c: seq<nat>)
    requires InRange(p) && i < |p|
    ensures |c| <= fuel && (fuel > 0 ==> |c| > 0 && c[0] == i)
    ensures forall k :: 0 <= k < |c| ==> c[k] < |p|
    decreases fuel
  {
    if fuel == 0 then []
    else if p[i].None? then [i]
    else [i] + Chain(p, p[i].value, fuel - 1)
  }

  /** Each node of the chain after the first is the parent of the one before it. */
  lemma {:induction false} ChainFollowsLinks(p: Links, i: nat, fuel: nat, k: nat)
    requires InRange(p) && i < |p| && k + 1 < |Chain(p, i, fuel)|
    ensures p[Chain(p, i, fuel)[k]] == Some(Chain(p, i, fuel)[k + 1])
    decreases fuel
  {
    if k > 0 {
      ChainFollowsLinks(p, p[i].value, fuel - 1, k - 1);
    }
  }

  /** When the walk ends, the chain stops exactly at a top node. */
  lemma {:induction false} ChainEndsAtTop(p: Links, i: nat, fuel: nat)
    requires InRange(p) && i < |p| && Ends(p, i, fuel)
    ensures var c := Chain(p, i, fuel); |c| > 0 && p[c[|c| - 1]].None?
    decreases fuel
  {
    if p[i].Some? {
      ChainEndsAtTop(p, p[i].value, fuel - 1);
    }
  }

  /** Extra fuel beyond what the walk needs changes nothing. */
  lemma {:induction false} ChainFuel(p: Links, i: nat, fuel: nat, more: nat)
    requires InRange(p) && i < |p| && Ends(p, i, fuel) && fuel <= more
    ensures Ends(p, i, more) && Chain(p, i, more) == Chain(p, i, fuel)
    decreases fuel
  {
    if p[i].Some? {
      ChainFuel(p, p[i].value, fuel - 1, more - 1);
    }
  }
}
