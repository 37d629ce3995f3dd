/**
 * The observed part of a hypothetical tree: the tree that remains when every
 * lineage ending in a leaf without a taxon (an unobserved lineage) is pruned
 * and the unary nodes that pruning leaves behind are suppressed.
 */
module Hypothetical {
  import opened Wrappers

  /**
   * A node of a binary tree. `info` stands for everything a node copy
   * carries over (number, height, attributes); a leaf may lack a taxon.
   */
  datatype HNode =
    | Leaf(info: nat, taxon: Option<nat>)
    | Inner(info: nat, left: HNode, right: HNode)

  /**
   * `getObservedLineage`: `None` stands for the null the source returns for a
   * lineage with no observed leaf.
   */
  function Observed(t: HNode): (r: Option<HNode>)
  {
    match t
    case Leaf(info, taxon) =>
      if taxon.None? then None else Some(Leaf(info, taxon))
    case Inner(info, left, right) =>
      var c1 := Observed(left);
      var c2 := Observed(right);
      if c1.Some? && c2.Some? then Some(Inner(info, c1.value, c2.value))
      else if c1 == c2 then None
      else if c2.None? then c1
      else c2
  }

  /** `getObservedTree`: the observed lineage of the root. */
  function ObservedTree(root: HNode): (r: Option<HNode>)
    ensures r.Some? <==> ObservedLeaves(root) != []
    ensures r.Some? ==> Leaves(r.value) == ObservedLeaves(root) && FullyObserved(r.value)
  {
    ObservedKeepsLeaves(root);
    Observed(root)
  }

  /** The leaves of a tree, left to right. */
  function Leaves(t: HNode): (ls: seq<HNode>)
    ensures |ls| >= 1
  {
    match t
    case Leaf(_, _) => [t]
    case Inner(_, left, right) => Leaves(left) + Leaves(right)
  }

  /** The leaves that carry a taxon, left to right. */
  function ObservedLeaves(t: HNode): (ls: seq<HNode>)
  {
    match t
    case Leaf(_, taxon) => if taxon.Some? then [t] else []
    case Inner(_, left, right) => ObservedLeaves(left) + ObservedLeaves(right)
  }

  /** Every leaf carries a taxon. */
  predicate FullyObserved(t: HNode)
  {
    match t
    case Leaf(_, taxon) => taxon.Some?
    case Inner(_, left, right) => FullyObserved(left) && FullyObserved(right)
  }

  /**
   * The result is null exactly when no leaf below carries a taxon; otherwise
   * its leaves are the taxon-bearing leaves, in their original order, and
   * every one of them carries a taxon.
   */
  lemma {:induction false} ObservedKeepsLeaves(t: HNode)
    ensures Observed(t).None? <==> ObservedLeaves(t) == []
    ensures Observed(t).Some? ==> Leaves(Observed(t).value) == ObservedLeaves(t)
    ensures Observed(t).Some? ==> FullyObserved(Observed(t).value)
  {
    match t
    case Leaf(_, _) =>
    case Inner(_, left, right) =>
      ObservedKeepsLeaves(left);
      ObservedKeepsLeaves(right);
  }

  /** A tree whose leaves all carry taxa is its own observed tree. */
  lemma {:induction false} FullyObservedUnchanged(t: HNode)
    requires FullyObserved(t)
    ensures Observed(t) == Some(t)
  {
    match t
    case Leaf(_, _) =>
    case Inner(_, left, right) =>
      FullyObservedUnchanged(left);
      FullyObservedUnchanged(right);
  }

  /** Pruning twice prunes nothing more. */
  lemma {:induction false} ObservedIdempotent(t: HNode)
    requires Observed(t).Some?
    ensures Observed(Observed(t).value) == Observed(t)
  {
    ObservedKeepsLeaves(t);
    FullyObservedUnchanged(Observed(t).value);
  }

  /** The `info` of every inner node, in pre-order. */
  function InnerInfos(t: HNode): (xs: seq<nat>)
  {
    match t
    case Leaf(_, _) => []
    case Inner(info, left, right) => [info] + InnerInfos(left) + InnerInfos(right)
  }

  /**
   * The inner nodes where observed lineages meet: both subtrees hold a
   * taxon-bearing leaf. In pre-order.
   */
  function BranchPoints(t: HNode): (xs: seq<nat>)
  {
    match t
    case Leaf(_, _) => []
    case Inner(info, left, right) =>
      (if ObservedLeaves(left) != [] && ObservedLeaves(right) != [] then [info] else []) +
      BranchPoints(left) + BranchPoints(right)
  }

  /**
   * The inner nodes kept are exactly the branch points, in pre-order: a node
   * with one unobserved side is replaced by the other side's result, so no
   * unary node survives, and no node where two observed lineages meet is lost.
   */
  lemma {:induction false} ObservedInnerNodes(t: HNode)
    requires Observed(t).Some?
    ensures InnerInfos(Observed(t).value) == BranchPoints(t)
  {
    match t
    case Leaf(_, _) =>
    case Inner(info, left, right) =>
      ObservedKeepsLeaves(left);
      ObservedKeepsLeaves(right);
      if Observed(left).Some? {
        ObservedInnerNodes(left);
      } else {
        UnobservedHasNoBranchPoints(left);
      }
      if Observed(right).Some? {
        ObservedInnerNodes(right);
      } else {
        UnobservedHasNoBranchPoints(right);
      }
  }

  lemma {:induction false} UnobservedHasNoBranchPoints(t: HNode)
    requires ObservedLeaves(t) == []
    ensures BranchPoints(t) == []
  {
    match t
    case Leaf(_, _) =>
    case Inner(_, left, right) =>
      UnobservedHasNoBranchPoints(left);
      UnobservedHasNoBranchPoints(right);
  }

  /** An observed binary tree has one inner node fewer than it has leaves. */
  lemma {:induction false} ObservedSize(t: HNode)
    requires Observed(t).Some?
    ensures |BranchPoints(t)| == |ObservedLeaves(t)| - 1
  {
    ObservedKeepsLeaves(t);
    ObservedInnerNodes(t);
    BinaryCount(Observed(t).value);
  }

  lemma {:induction false} BinaryCount(t: HNode)
    ensures |InnerInfos(t)| == |Leaves(t)| - 1
  {
    match t
    case Leaf(_, _) =>
    case Inner(_, left, right) =>
      BinaryCount(left);
      BinaryCount(right);
  }
}
