/**
 * The adapter that presents a BEAST tree through JPrIME's rooted bifurcating
 * tree interface: vertices are BEAST node numbers, NULL (-1) stands for the
 * missing vertex, and the queries walk the parent and child links of the
 * wrapped tree.
 */
module JPrimeWrapper {
  import opened Trees

  /**
   * The wrapped tree: each node's parent, each node's children in order, the
   * root, and the external (leaf) nodes in BEAST's external-node order.
   */
  datatype BeastTree = BeastTree(parent: seq<int>, children: seq<seq<int>>, root: nat, external: seq<int>)

  predicate Node(t: BeastTree, x: int)
  {
    0 <= x < |t.parent|
  }

  /** Parent and child links agree, the parents form one rooted tree, and `external` lists the leaves once each. */
  predicate WellFormed(t: BeastTree)
  {
    |t.children| == |t.parent| && Acyclic(t.parent) &&
    t.root < |t.parent| && t.parent[t.root] == NULL &&
    (forall x :: 0 <= x < |t.parent| && t.parent[x] == NULL ==> x == t.root) &&
    (forall x, j :: 0 <= x < |t.children| && 0 <= j < |t.children[x]| ==>
      0 <= t.children[x][j] < |t.parent| && t.parent[t.children[x][j]] == x) &&
    (forall y :: 0 <= y < |t.parent| && t.parent[y] != NULL ==> y in t.children[t.parent[y]]) &&
    (forall x, j, k :: 0 <= x < |t.children| && 0 <= j < k < |t.children[x]| ==>
      t.children[x][j] != t.children[x][k]) &&
    (forall y :: y in t.external ==> 0 <= y < |t.parent| && |t.children[y]| == 0) &&
    (forall y :: 0 <= y < |t.parent| && |t.children[y]| == 0 ==> y in t.external) &&
    (forall j, k :: 0 <= j < k < |t.external| ==> t.external[j] != t.external[k])
  }

  /** Every inner node has exactly two children. */
  predicate Bifurcating(t: BeastTree)
    requires WellFormed(t)
  {
    forall x :: 0 <= x < |t.parent| ==> |t.children[x]| == 0 || |t.children[x]| == 2
  }

  /** `getParent`: NULL for the root. */
  function GetParent(t: BeastTree, i: int): (r: int)
    requires WellFormed(t) && Node(t, i)
    ensures r == NULL <==> i == t.root
    ensures r != NULL ==> Node(t, r) && i in t.children[r]
  {
    t.parent[i]
  }

  /** `isRoot`. */
  function IsRoot(t: BeastTree, i: int): (r: bool)
    requires WellFormed(t) && Node(t, i)
    ensures r <==> i == t.root
  {
    t.parent[i] == NULL
  }

  /** `isLeaf`: an external node. */
  function IsLeaf(t: BeastTree, i: int): (r: bool)
    requires WellFormed(t) && Node(t, i)
    ensures r <==> i in t.external
  {
    |t.children[i]| == 0
  }

  /** `hasArc(i, j)`: `j` is the parent of `i`. */
  function HasArc(t: BeastTree, i: int, j: int): (r: bool)
    requires WellFormed(t) && Node(t, i)
  {
    GetParent(t, i) == j
  }

  /** An arc runs exactly from a child to its parent, and the root has an arc to NULL only. */
  lemma {:induction false} ArcIsChildLink(t: BeastTree, i: int, j: int)
    requires WellFormed(t) && Node(t, i) && Node(t, j)
    ensures HasArc(t, i, j) <==> i in t.children[j]
    ensures HasArc(t, i, NULL) <==> i == t.root
  {
    if i in t.children[j] {
      var k :| 0 <= k < |t.children[j]| && t.children[j][k] == i;
    }
  }

  /** `getLeftChild` and `getRightChild`: the first and second child. */
  function LeftChild(t: BeastTree, i: int): (r: int)
    requires WellFormed(t) && Node(t, i) && |t.children[i]| >= 2
    ensures Node(t, r) && t.parent[r] == i && r != RightChild(t, i)
  {
    t.children[i][0]
  }

  function RightChild(t: BeastTree, i: int): (r: int)
    requires WellFormed(t) && Node(t, i) && |t.children[i]| >= 2
    ensures Node(t, r) && t.parent[r] == i
  {
    t.children[i][1]
  }

  /** `getSibling`: NULL for the root, otherwise the other child of the parent. */
  function GetSibling(t: BeastTree, i: int): (r: int)
    requires WellFormed(t) && Bifurcating(t) && Node(t, i)
    ensures r == NULL <==> i == t.root
    ensures r != NULL ==> Node(t, r) && r != i && t.parent[r] == t.parent[i]
  {
    if t.parent[i] == NULL then NULL
    else
      var p := t.parent[i];
      assert i in t.children[p];
      var c1 := t.children[p][0];
      var c2 := t.children[p][1];
      if i == c2 then c1 else c2
  }

  /** The sibling of a sibling is the node itself. */
  lemma {:induction false} SiblingInvolutive(t: BeastTree, i: int)
    requires WellFormed(t) && Bifurcating(t) && Node(t, i) && i != t.root
    ensures GetSibling(t, GetSibling(t, i)) == i
  {
    var p := t.parent[i];
    assert i in t.children[p];
    var s := GetSibling(t, i);
    assert s == t.children[p][0] || s == t.children[p][1];
  }

  // ---------------------------------------------------------------------
  // Ancestors

  /** A node is at level one or deeper, and a node other than the root at level two or deeper. */
  lemma {:induction false} LevelOfNode(t: BeastTree, i: int)
    requires WellFormed(t) && Node(t, i)
    ensures Level(t.parent, i) >= 1
    ensures i != t.root ==> Level(t.parent, i) >= 2
  {
    LevelUp(t.parent, i, 0);
    if i != t.root {
      LevelStep(t.parent, i);
      LevelUp(t.parent, t.parent[i], 0);
    }
  }

  /** The proper ancestors of `i`, nearest first, up to and including the root. */
  function Chain(t: BeastTree, i: int): (cs: seq<int>)
    requires WellFormed(t) && Node(t, i)
    ensures |cs| == Level(t.parent, i) - 1
    ensures i != t.root ==> |cs| >= 1
  {
    LevelOfNode(t, i);
    Ancestry(t.parent, i)
  }

  /** The same list over the parent array alone: the nodes one, two, ... steps up from `i`. */
  function Ancestry(p: seq<int>, i: int): (cs: seq<int>)
    requires Acyclic(p) && 0 <= i < |p|
    ensures |cs| + 1 == Level(p, i)
  {
    LevelUp(p, i, 0);
    seq(Level(p, i) - 1, k requires 0 <= k < Level(p, i) - 1 => Up(p, i, k + 1))
  }

  /** Each member of the chain is a proper ancestor of `i`, at distance one more than its position. */
  lemma {:induction false} ChainAbove(t: BeastTree, i: int, k: nat)
    requires WellFormed(t) && Node(t, i) && k < |Chain(t, i)|
    ensures Node(t, Chain(t, i)[k]) && Above(t.parent, Chain(t, i)[k], i)
    ensures Level(t.parent, i) - Level(t.parent, Chain(t, i)[k]) == k + 1
  {
    LevelUp(t.parent, i, k + 1);
    UpAbove(t.parent, i, k + 1);
  }

  /** Every proper ancestor of `i` is in the chain. */
  lemma {:induction false} ChainComplete(t: BeastTree, i: int, a: int)
    requires WellFormed(t) && Node(t, i) && Ref(t.parent, a) && Above(t.parent, a, i)
    ensures a in Chain(t, i)
  {
    assert Chain(t, i)[Level(t.parent, i) - Level(t.parent, a) - 1] == a;
  }

  /** The chain of a node other than the root ends at the root. */
  lemma {:induction false} ChainEndsAtRoot(t: BeastTree, i: int)
    requires WellFormed(t) && Node(t, i) && i != t.root
    ensures Chain(t, i)[|Chain(t, i)| - 1] == t.root
  {
    var p := t.parent;
    var n := |Chain(t, i)|;
    ChainAbove(t, i, n - 1);
    LevelUp(p, i, n + 1);
    UpNext(p, i, n);
  }

  /** A non-NULL node `k + 1` steps up is entry `k` of the list. */
  lemma {:induction false} UpInChain(p: seq<int>, i: int, k: nat)
    requires Acyclic(p) && 0 <= i < |p| && k < Level(p, i) && Up(p, i, k + 1) != NULL
    ensures k < |Ancestry(p, i)| && Ancestry(p, i)[k] == Up(p, i, k + 1)
  {
    if k + 1 == Level(p, i) {
      LevelUp(p, i, k + 1);
    }
  }

  /** The walk leaves the root after exactly as many steps as the list is long. */
  lemma {:induction false} UpLeavesChain(p: seq<int>, i: int, k: nat)
    requires Acyclic(p) && 0 <= i < |p| && k < Level(p, i) && Up(p, i, k + 1) == NULL
    ensures k == |Ancestry(p, i)|
  {
    if k + 1 < Level(p, i) {
      LevelUp(p, i, k + 1);
    }
  }

  /** One more step up the walk extends the prefix read so far by the node met. */
  lemma {:induction false} ChainStep(p: seq<int>, i: int, k: nat)
    requires Acyclic(p) && 0 <= i < |p| && k < Level(p, i) && Up(p, i, k + 1) != NULL
    ensures k + 1 < Level(p, i)
    ensures Ancestry(p, i)[..k + 1] == Ancestry(p, i)[..k] + [Up(p, i, k + 1)]
    ensures Up(p, i, k + 2) == p[Up(p, i, k + 1)]
  {
    UpInChain(p, i, k);
    UpNext(p, i, k + 1);
    assert Ancestry(p, i)[..k + 1] == Ancestry(p, i)[..k] + [Ancestry(p, i)[k]];
  }

  /** `getAncestors(i, b)`: the chain of proper ancestors, preceded by `i` when `b` holds. */
  method GetAncestors(t: BeastTree, i: int, b: bool) returns (ancestors: seq<int>)
    requires WellFormed(t) && Node(t, i)
    ensures ancestors == (if b then [i] else []) + Chain(t, i)
  {
    ancestors := WalkUp(t.parent, i, if b then [i] else []);
  }

  /** The loop of `getAncestors`: follow the parents from `i` up to NULL, appending each one. */
  method WalkUp(p: seq<int>, i: int, start: seq<int>) returns (ancestors: seq<int>)
    requires Acyclic(p) && 0 <= i < |p|
    ensures ancestors == start + Ancestry(p, i)
  {
    ancestors := start;
    ghost var chain := Ancestry(p, i);
    LevelUp(p, i, 0);
    var n := p[i];
    ghost var k: nat := 0;
    while n != NULL
      invariant k < Level(p, i) && n == Up(p, i, k + 1) && Ref(p, n)
      invariant k <= |chain| && ancestors == start + chain[..k]
      decreases Level(p, i) - k
    {
      ChainStep(p, i, k);
      ancestors := ancestors + [n];
      n := p[n];
      k := k + 1;
    }
    UpLeavesChain(p, i, k);
    assert chain[..k] == chain;
  }

  /** `getNoOfAncestors`: the length of that list. */
  method NoOfAncestors(t: BeastTree, i: int, b: bool) returns (r: nat)
    requires WellFormed(t) && Node(t, i)
    ensures r == Level(t.parent, i) - 1 + (if b then 1 else 0)
  {
    var ancestors := GetAncestors(t, i, b);
    LevelUp(t.parent, i, 0);
    r := |ancestors|;
  }

  /**
   * `hasPath(i, j)`: walk up from `j`, one parent at a time, until `i` or
   * NULL is met. It holds exactly when `i` is a proper ancestor of `j`, and
   * also for `i` = NULL, which the walk always meets at the end.
   */
  method HasPath(t: BeastTree, i: int, j: int) returns (r: bool)
    requires WellFormed(t) && Node(t, j)
    ensures r <==> i == NULL || (Node(t, i) && Above(t.parent, i, j))
  {
    var p := t.parent;
    var cur := j;
    ghost var k: nat := 0;
    LevelUp(p, j, 0);
    while true
      invariant cur == Up(p, j, k) && Node(t, cur) && k < Level(p, j)
      invariant forall s :: 1 <= s <= k ==> Up(p, j, s) != i
      decreases Level(p, j) - k
    {
      UpNext(p, j, k);
      cur := p[cur];
      k := k + 1;
      if i == cur {
        if i != NULL {
          UpAbove(p, j, k);
        }
        return true;
      }
      if cur == NULL {
        if Node(t, i) {
          NotAboveAfterWalk(p, i, j, k - 1);
        }
        return false;
      }
      UpAbove(p, j, k);
    }
  }

  // ---------------------------------------------------------------------
  // Children and leaves

  /** `getChildren`: the children of `i`, in order. */
  method GetChildren(t: BeastTree, i: int) returns (children: seq<int>)
    requires WellFormed(t) && Node(t, i)
    ensures children == t.children[i]
    ensures forall y :: y in children <==> Node(t, y) && t.parent[y] == i
  {
    var childCount := |t.children[i]|;
    children := [];
    var j := 0;
    while j < childCount
      invariant 0 <= j <= childCount && children == t.children[i][..j]
    {
      children := children + [t.children[i][j]];
      j := j + 1;
    }
    assert children == t.children[i];
    forall y | y in children
      ensures Node(t, y) && t.parent[y] == i
    {
      var k :| 0 <= k < |children| && children[k] == y;
    }
  }

  /** `getLeaves`: the external nodes in BEAST's order, so every leaf, each once. */
  method GetLeaves(t: BeastTree) returns (leaves: seq<int>)
    requires WellFormed(t)
    ensures leaves == t.external
    ensures forall y :: y in leaves <==> Node(t, y) && IsLeaf(t, y)
    ensures forall j, k :: 0 <= j < k < |leaves| ==> leaves[j] != leaves[k]
  {
    var externalNodeCount := |t.external|;
    leaves := [];
    var i := 0;
    while i < externalNodeCount
      invariant 0 <= i <= externalNodeCount && leaves == t.external[..i]
    {
      leaves := leaves + [t.external[i]];
      i := i + 1;
    }
    assert leaves == t.external;
  }

  // ---------------------------------------------------------------------
  // Descendants

  /** The distance of a node from the deepest possible level; it shrinks towards the leaves. */
  function Depth(t: BeastTree, x: int): (d: nat)
    requires WellFormed(t) && Node(t, x)
  {
    |t.parent| - Level(t.parent, x)
  }

  lemma {:induction false} ChildDeeper(t: BeastTree, x: int, j: nat)
    requires WellFormed(t) && Node(t, x) && j < |t.children[x]|
    ensures Node(t, t.children[x][j]) && Depth(t, t.children[x][j]) < Depth(t, x)
  {
    LevelStep(t.parent, t.children[x][j]);
  }

  /** The subtree of `x` in pre-order: `x`, then each child's subtree in turn. */
  function PreOrder(t: BeastTree, x: int): (xs: seq<int>)
    requires WellFormed(t) && Node(t, x)
    ensures |xs| >= 1 && xs[0] == x
    decreases Depth(t, x), 1
  {
    [x] + PreOrderUpTo(t, x, |t.children[x]|)
  }

  function PreOrderUpTo(t: BeastTree, x: int, k: nat): (xs: seq<int>)
    requires WellFormed(t) && Node(t, x) && k <= |t.children[x]|
    decreases Depth(t, x), 0, k
  {
    if k == 0 then []
    else
      ChildDeeper(t, x, k - 1);
      PreOrderUpTo(t, x, k - 1) + PreOrder(t, t.children[x][k - 1])
  }

  /**
   * The recursive helper of `getDescendants`: it appends the subtree of `n`
   * in pre-order to the list.
   */
  method CollectDescendants(t: BeastTree, n: int, descendants: seq<int>) returns (out: seq<int>)
    requires WellFormed(t) && Node(t, n)
    ensures out == descendants + PreOrder(t, n)
    decreases Depth(t, n), 1
  {
    out := descendants + [n];
    ghost var head := out;
    if |t.children[n]| == 0 {
      return;
    }
    var i := 0;
    while i < |t.children[n]|
      invariant 0 <= i <= |t.children[n]|
      invariant out == head + PreOrderUpTo(t, n, i)
    {
      ChildDeeper(t, n, i);
      ghost var before := out;
      out := CollectDescendants(t, t.children[n][i], out);
      PreOrderUpToNext(t, n, i, head, before, out);
      i := i + 1;
    }
  }

  /** After the child at position `i`, the list holds one more child's subtree. */
  lemma {:induction false} PreOrderUpToNext(t: BeastTree, n: int, i: nat, head: seq<int>, before: seq<int>, after: seq<int>)
    requires WellFormed(t) && Node(t, n) && i < |t.children[n]|
    requires Node(t, t.children[n][i])
    requires before == head + PreOrderUpTo(t, n, i)
    requires after == before + PreOrder(t, t.children[n][i])
    ensures after == head + PreOrderUpTo(t, n, i + 1)
  {
  }

  /** `getDescendants(i, b)`: the subtree of `i` in pre-order, without `i` itself when `b` holds. */
  method GetDescendants(t: BeastTree, i: int, b: bool) returns (descendants: seq<int>)
    requires WellFormed(t) && Node(t, i)
    ensures descendants == if b then PreOrder(t, i)[1..] else PreOrder(t, i)
  {
    descendants := CollectDescendants(t, i, []);
    if b {
      descendants := descendants[1..];
    }
  }

  /** `getNoOfDescendants`: the length of that list. */
  method NoOfDescendants(t: BeastTree, i: int, b: bool) returns (r: nat)
    requires WellFormed(t) && Node(t, i)
    ensures r == |PreOrder(t, i)| - (if b then 1 else 0)
  {
    var descendants := GetDescendants(t, i, b);
    r := |descendants|;
  }

  /** Every node listed in the subtree of `x` is `x` or has `x` as a proper ancestor. */
  lemma {:induction false} PreOrderBelow(t: BeastTree, x: int)
    requires WellFormed(t) && Node(t, x)
    ensures forall y :: y in PreOrder(t, x) ==> y == x || (Node(t, y) && Above(t.parent, x, y))
    decreases Depth(t, x), 1
  {
    PreOrderUpToBelow(t, x, |t.children[x]|);
  }

  lemma {:induction false} PreOrderUpToBelow(t: BeastTree, x: int, k: nat)
    requires WellFormed(t) && Node(t, x) && k <= |t.children[x]|
    ensures forall y :: y in PreOrderUpTo(t, x, k) ==> Node(t, y) && Above(t.parent, x, y)
    decreases Depth(t, x), 0, k
  {
    if k > 0 {
      var c := t.children[x][k - 1];
      ChildDeeper(t, x, k - 1);
      PreOrderUpToBelow(t, x, k - 1);
      PreOrderBelow(t, c);
      forall y | y in PreOrder(t, c)
        ensures Node(t, y) && Above(t.parent, x, y)
      {
        ChildBelow(t, x, c, y);
      }
    }
  }

  /** A descendant of a child of `x` (or the child itself) lies below `x`. */
  lemma {:induction false} ChildBelow(t: BeastTree, x: int, c: int, y: int)
    requires WellFormed(t) && Node(t, x) && Node(t, c) && t.parent[c] == x
    requires y == c || (Node(t, y) && Above(t.parent, c, y))
    ensures Node(t, y) && Above(t.parent, x, y)
  {
    var p := t.parent;
    LevelStep(p, c);
    if y != c {
      var d := Level(p, y) - Level(p, c);
      UpAdd(p, y, d, 1);
    }
  }

  /** Every proper descendant of `x` is listed in its subtree. */
  lemma {:induction false} BelowInPreOrder(t: BeastTree, x: int, y: int)
    requires WellFormed(t) && Node(t, x) && Node(t, y) && Above(t.parent, x, y)
    ensures y in PreOrder(t, x)
    decreases Level(t.parent, y) - Level(t.parent, x)
  {
    var p := t.parent;
    var d := Level(p, y) - Level(p, x);
    var c := Up(p, y, d - 1);
    UpNext(p, y, d - 1);
    LevelUp(p, y, d - 1);
    assert c != NULL && p[c] == x;
    assert c in t.children[x];
    var j :| 0 <= j < |t.children[x]| && t.children[x][j] == c;
    if d > 1 {
      UpAbove(p, y, d - 1);
      BelowInPreOrder(t, c, y);
    }
    ChildInPreOrder(t, x, j);
  }

  /** A child's subtree is part of its parent's. */
  lemma {:induction false} ChildInPreOrder(t: BeastTree, x: int, j: nat)
    requires WellFormed(t) && Node(t, x) && j < |t.children[x]|
    ensures Node(t, t.children[x][j])
    ensures forall y :: y in PreOrder(t, t.children[x][j]) ==> y in PreOrder(t, x)
  {
    ChildDeeper(t, x, j);
    PreOrderUpToGrows(t, x, j + 1, |t.children[x]|);
  }

  lemma {:induction false} PreOrderUpToGrows(t: BeastTree, x: int, j: nat, k: nat)
    requires WellFormed(t) && Node(t, x) && 0 < j <= k <= |t.children[x]|
    ensures Node(t, t.children[x][j - 1])
    ensures forall y :: y in PreOrder(t, t.children[x][j - 1]) ==> y in PreOrderUpTo(t, x, k)
    decreases k
  {
    ChildDeeper(t, x, j - 1);
    if j < k {
      PreOrderUpToGrows(t, x, j, k - 1);
    }
  }

  /** The leaves of the subtree of `x`. */
  function LeavesBelow(t: BeastTree, x: int): (s: set<nat>)
    requires WellFormed(t) && Node(t, x)
  {
    set y: nat | y in PreOrder(t, x) && Node(t, y) && |t.children[y]| == 0
  }

  /** `xs` lists the members of `s`, each exactly once. */
  predicate ListsOnce(xs: seq<int>, s: set<nat>)
  {
    |xs| == |s| && (forall y :: y in xs ==> y in s) && (forall y :: y in s ==> y in xs) &&
    forall j, k :: 0 <= j < k < |xs| ==> xs[j] != xs[k]
  }

  /**
   * `getDescendantLeaves(i, b)`: `i` first unless `b` holds, then the
   * external nodes below `i`, each once, in the order the BEAST utility
   * yields them (taken here as unspecified).
   */
  method GetDescendantLeaves(t: BeastTree, i: int, b: bool) returns (descendants: seq<int>)
    requires WellFormed(t) && Node(t, i)
    ensures !b ==> |descendants| >= 1 && descendants[0] == i
    ensures ListsOnce(if b then descendants else descendants[1..], LeavesBelow(t, i))
  {
    var leaves := ExternalNodesBelow(t, i);
    descendants := (if b then [] else [i]) + leaves;
    if !b {
      assert descendants[1..] == leaves;
    }
  }

  /** The external nodes below `n`, each once, in no particular order. */
  method ExternalNodesBelow(t: BeastTree, n: int) returns (leaves: seq<int>)
    requires WellFormed(t) && Node(t, n)
    ensures ListsOnce(leaves, LeavesBelow(t, n))
  {
    leaves := ListSet(LeavesBelow(t, n));
  }

  /** The members of a set, each once, in the order they are picked. */
  method ListSet(s: set<nat>) returns (xs: seq<int>)
    ensures ListsOnce(xs, s)
  {
    xs := [];
    var remaining := s;
    ghost var listed: set<nat> := {};
    while remaining != {}
      invariant listed !! remaining && listed + remaining == s
      invariant ListsOnce(xs, listed)
      decreases |remaining|
    {
      var y :| y in remaining;
      ListsOnceStep(xs, listed, y);
      xs := xs + [y];
      listed := listed + {y};
      remaining := remaining - {y};
    }
  }

  lemma {:induction false} ListsOnceStep(xs: seq<int>, s: set<nat>, y: nat)
    requires ListsOnce(xs, s) && y !in s
    ensures ListsOnce(xs + [y], s + {y})
  {
  }

  /** `getNoOfDescendantLeaves`: the length of the `getDescendantLeaves` list. */
  method NoOfDescendantLeaves(t: BeastTree, i: int, b: bool) returns (r: nat)
    requires WellFormed(t) && Node(t, i)
    ensures r == |LeavesBelow(t, i)| + (if b then 0 else 1)
  {
    var descendants := GetDescendantLeaves(t, i, b);
    r := |descendants|;
  }

  /**
   * A leaf is its own only leaf, so `getDescendantLeaves(i, false)` of a leaf
   * lists `i` twice: once in front and once as a leaf below it.
   */
  lemma {:induction false} LeafIsOwnLeaf(t: BeastTree, i: int)
    requires WellFormed(t) && Node(t, i) && |t.children[i]| == 0
    ensures LeavesBelow(t, i) == {i}
  {
    assert PreOrder(t, i) == [i];
  }

  /** A list without repeats has as many entries as it has members. */
  lemma {:induction false} DistinctCard(xs: seq<int>)
    requires forall j, k :: 0 <= j < k < |xs| ==> xs[j] != xs[k]
    ensures |set y | y in xs| == |xs|
  {
    if |xs| > 0 {
      var init := xs[..|xs| - 1];
      DistinctCard(init);
      assert (set y | y in xs) == (set y | y in init) + {xs[|xs| - 1]};
    }
  }

  /** `getNoOfChildren`: the number of nodes whose parent is `i`. */
  function NoOfChildren(t: BeastTree, i: int): (r: nat)
    requires WellFormed(t) && Node(t, i)
    ensures r == |set y | 0 <= y < |t.parent| && t.parent[y] == i|
  {
    var cs := t.children[i];
    DistinctCard(cs);
    assert (set y | 0 <= y < |t.parent| && t.parent[y] == i) == (set y | y in cs);
    |cs|
  }

  /** `getNoOfLeaves`: the number of external nodes. */
  function NoOfLeaves(t: BeastTree): (r: nat)
    requires WellFormed(t)
    ensures r == |set y | 0 <= y < |t.parent| && |t.children[y]| == 0|
  {
    DistinctCard(t.external);
    assert (set y | 0 <= y < |t.parent| && |t.children[y]| == 0) == (set y | y in t.external);
    |t.external|
  }
}
