/**
 * The transmission-tree operator: it wraps a phylogenetic tree move and then
 * repaints the branch map (the infecting case of every node's branch) so that
 * the painting stays consistent with the moved tree.
 *
 * Cases are compared by identity and are modelled as integers. The inner
 * move itself is random and is not modelled: its effect arrives as the trees
 * before and after it, the node heights before and after it, the moved
 * node's children after it, and the Hastings ratio it reports.
 */
module TransmissionTree {
  import opened Wrappers
  import opened Trees

  /**
   * The operator's failures: the checked `OperatorFailedException`, an index
   * out of bounds, and the `RuntimeException` the constructor throws.
   */
  datatype Error = OperatorFailed | IndexOutOfBounds | ExtendedPainting

  /** The kinds of inner operator the wrapper distinguishes. */
  datatype InnerKind = Exchange | SubtreeSlide | WilsonBalding | OtherOperator

  /** A tree as the operator sees it: its root, the parent of every other node, and each node's children. */
  datatype TreeShape = TreeShape(root: nat, parent: seq<int>, children: seq<seq<int>>)

  /** The likelihood's painting: the branch map and its dirty flag. */
  class Painting {
    var branchMap: array<int>
    var dirty: bool

    constructor(m: seq<int>)
      ensures branchMap[..] == m && !dirty && fresh(branchMap)
    {
      branchMap := new int[|m|](i requires 0 <= i < |m| => m[i]);
      dirty := false;
    }
  }

  /** The wrapped operator: what kind of move it performs. */
  datatype Operator = Operator(inner: InnerKind)

  /** The constructor refuses, with a runtime exception, a likelihood whose paintings are extended. */
  function Construct(inner: InnerKind, extended: bool): (r: Result<Operator, Error>)
    ensures r.Success? <==> !extended
    ensures r.Success? ==> r.value.inner == inner
    ensures r.Failure? ==> r.error == ExtendedPainting
  {
    if extended then Failure(ExtendedPainting) else Success(Operator(inner))
  }

  // ---------------------------------------------------------------------
  // Parent arrays and changed nodes

  /** Every non-root parent and every child is a node number. */
  predicate Shaped(t: TreeShape)
  {
    |t.children| == |t.parent| &&
    (forall i :: 0 <= i < |t.parent| && i != t.root ==> 0 <= t.parent[i] < |t.parent|) &&
    (forall i, j :: 0 <= i < |t.children| && 0 <= j < |t.children[i]| ==> 0 <= t.children[i][j] < |t.parent|)
  }

  /** `getParentsArray` as a value: -1 for the root, the parent's number for every other node. */
  function ParentsOf(t: TreeShape): (p: seq<int>)
    requires Shaped(t)
    ensures |p| == |t.parent| && InRange(p)
  {
    seq(|t.parent|, i requires 0 <= i < |t.parent| => if i == t.root then NULL else t.parent[i])
  }

  /** `getParentsArray`. */
  method GetParentsArray(t: TreeShape) returns (out: array<int>)
    requires Shaped(t)
    ensures fresh(out) && out.Length == |t.parent|
    ensures forall i :: 0 <= i < out.Length ==> (out[i] == NULL <==> i == t.root || t.parent[i] == NULL)
    ensures forall i :: 0 <= i < out.Length && i != t.root ==> out[i] == t.parent[i]
    ensures out[..] == ParentsOf(t)
  {
    out := new int[|t.parent|];
    var i := 0;
    while i < |t.parent|
      invariant 0 <= i <= |t.parent|
      invariant forall j :: 0 <= j < i ==> out[j] == ParentsOf(t)[j]
    {
      if i == t.root {
        out[i] := NULL;
      } else {
        out[i] := t.parent[i];
      }
      i := i + 1;
    }
  }

  /** Indices below `k` whose parent differs, in ascending order. */
  function ChangedUpTo(oldParents: seq<int>, newParents: seq<int>, k: nat): (cs: seq<int>)
    requires k <= |oldParents| == |newParents|
    ensures forall i :: 0 <= i < |cs| ==> 0 <= cs[i] < k
  {
    if k == 0 then []
    else ChangedUpTo(oldParents, newParents, k - 1) + (if oldParents[k - 1] != newParents[k - 1] then [k - 1] else [])
  }

  /** Exactly the indices whose parent differs, each once, in ascending order. */
  lemma {:induction false} ChangedExactly(oldParents: seq<int>, newParents: seq<int>, k: nat)
    requires k <= |oldParents| == |newParents|
    ensures forall i :: i in ChangedUpTo(oldParents, newParents, k) <==> 0 <= i < k && oldParents[i] != newParents[i]
    ensures forall a, b :: 0 <= a < b < |ChangedUpTo(oldParents, newParents, k)| ==>
      ChangedUpTo(oldParents, newParents, k)[a] < ChangedUpTo(oldParents, newParents, k)[b]
  {
    if k > 0 {
      ChangedExactly(oldParents, newParents, k - 1);
      var before := ChangedUpTo(oldParents, newParents, k - 1);
      assert forall a :: 0 <= a < |before| ==> before[a] in before;
    }
  }

  /** The loop collecting `changedNodes`. */
  method ChangedNodes(oldParents: array<int>, newParents: array<int>) returns (changed: seq<int>)
    requires oldParents.Length == newParents.Length
    ensures changed == ChangedUpTo(oldParents[..], newParents[..], oldParents.Length)
  {
    changed := [];
    var i := 0;
    while i < oldParents.Length
      invariant 0 <= i <= oldParents.Length
      invariant changed == ChangedUpTo(oldParents[..], newParents[..], i)
    {
      if oldParents[i] != newParents[i] {
        changed := changed + [i];
      }
      i := i + 1;
    }
  }

  // ---------------------------------------------------------------------
  // Painting up the tree

  /**
   * The run of consecutive nodes from `x` upwards whose painting in `m` is
   * `c`; it stops at the first node painted otherwise, or above the root.
   */
  function Run(p: seq<int>, m: seq<int>, x: int, c: int, fuel: nat): (s: set<int>)
    requires InRange(p) && |m| == |p| && Ref(p, x)
    ensures forall y :: y in s ==> 0 <= y < |p| && m[y] == c
    decreases fuel
  {
    if x == NULL || fuel == 0 || m[x] != c then {} else {x} + Run(p, m, p[x], c, fuel - 1)
  }

  /**
   * `paintUp` as a value: starting at the parent of `nodeNo`, the ancestors
   * painted `oldCase` in `m` (one after another) get `newCase` in `base`.
   */
  function Repainted(m: seq<int>, base: seq<int>, p: seq<int>, nodeNo: int, oldCase: int, newCase: int): (r: seq<int>)
    requires Acyclic(p) && |m| == |p| == |base| && 0 <= nodeNo < |p|
    ensures |r| == |base|
  {
    var run := Run(p, m, p[nodeNo], oldCase, |p|);
    seq(|base|, x requires 0 <= x < |base| => if x in run then newCase else base[x])
  }

  /** The node `k` steps above `x` sits `k` levels higher, while it is a node. */
  lemma {:induction false} StepLevel(p: seq<int>, x: int, k: nat)
    requires Acyclic(p) && 0 <= x < |p| && Up(p, x, k) != NULL
    ensures k < Level(p, x) && Level(p, Up(p, x, k)) == Level(p, x) - k
  {
    if k >= Level(p, x) {
      LevelUp(p, x, Level(p, x));
      UpAdd(p, x, Level(p, x), k - Level(p, x));
    }
    LevelUp(p, x, k);
  }

  /**
   * A node `s` steps above `x` is in the run from `x` exactly when it and
   * every node below it on the way up from `x` is painted `c`.
   */
  lemma {:induction false} RunIsPrefix(p: seq<int>, m: seq<int>, x: int, c: int, fuel: nat, s: nat)
    requires Acyclic(p) && |m| == |p| && 0 <= x < |p| && Up(p, x, s) != NULL && Level(p, x) <= fuel
    ensures Up(p, x, s) in Run(p, m, x, c, fuel) ==> forall r :: 0 <= r <= s ==> Up(p, x, r) != NULL && m[Up(p, x, r)] == c
    ensures (forall r :: 0 <= r <= s ==> Up(p, x, r) != NULL && m[Up(p, x, r)] == c) ==> Up(p, x, s) in Run(p, m, x, c, fuel)
    decreases s
  {
    StepLevel(p, x, s);
    if m[x] != c {
      assert Up(p, x, 0) == x;
    } else if s == 0 {
    } else {
      LevelStep(p, x);
      UpAdd(p, x, 1, s - 1);
      var q := p[x];
      assert Run(p, m, x, c, fuel) == {x} + Run(p, m, q, c, fuel - 1);
      assert Up(p, q, s - 1) == Up(p, x, s);
      RunIsPrefix(p, m, q, c, fuel - 1, s - 1);
      assert Up(p, x, s) != x by {
        StepLevel(p, x, s);
      }
      forall r | 1 <= r <= s
        ensures Up(p, x, r) == Up(p, q, r - 1)
      {
        UpAdd(p, x, 1, r - 1);
      }
      assert Up(p, x, 0) == x;
      var y := Up(p, x, s);
      if y in Run(p, m, x, c, fuel) {
        assert y in Run(p, m, q, c, fuel - 1);
        forall r | 0 <= r <= s
          ensures Up(p, x, r) != NULL && m[Up(p, x, r)] == c
        {
          if r > 0 {
            assert Up(p, q, r - 1) != NULL && m[Up(p, q, r - 1)] == c;
          }
        }
      }
      if forall r :: 0 <= r <= s ==> Up(p, x, r) != NULL && m[Up(p, x, r)] == c {
        forall r | 0 <= r <= s - 1
          ensures Up(p, q, r) != NULL && m[Up(p, q, r)] == c
        {
          assert Up(p, x, r + 1) == Up(p, q, r);
        }
        assert y in Run(p, m, q, c, fuel - 1);
      }
    }
  }

  /** Every node in a run from `x` lies on the way up from `x`. */
  lemma {:induction false} RunOnPath(p: seq<int>, m: seq<int>, x: int, c: int, fuel: nat, y: int)
    requires Acyclic(p) && |m| == |p| && Ref(p, x) && y in Run(p, m, x, c, fuel)
    ensures exists s :: 0 <= s < fuel && Up(p, x, s) == y
    decreases fuel
  {
    if y == x {
      assert Up(p, x, 0) == y;
    } else {
      RunOnPath(p, m, p[x], c, fuel - 1, y);
      var s :| 0 <= s < fuel - 1 && Up(p, p[x], s) == y;
      UpAdd(p, x, 1, s);
      assert Up(p, x, s + 1) == y;
    }
  }

  /**
   * What `paintUp` writes: only proper ancestors of `nodeNo` change, each to
   * `newCase`; a proper ancestor changes exactly when it and every ancestor
   * between it and `nodeNo` was painted `oldCase`. Nothing changes at the root.
   */
  lemma {:induction false} RepaintedAncestors(m: seq<int>, base: seq<int>, p: seq<int>, nodeNo: int, oldCase: int, newCase: int, y: int)
    requires Acyclic(p) && |m| == |p| == |base| && 0 <= nodeNo < |p| && 0 <= y < |p|
    requires Repainted(m, base, p, nodeNo, oldCase, newCase)[y] != base[y]
    ensures Above(p, y, nodeNo) && p[nodeNo] != NULL
    ensures forall r :: 1 <= r <= Level(p, nodeNo) - Level(p, y) ==> Up(p, nodeNo, r) != NULL && m[Up(p, nodeNo, r)] == oldCase
  {
    var run := Run(p, m, p[nodeNo], oldCase, |p|);
    assert y in run;
    RunOnPath(p, m, p[nodeNo], oldCase, |p|, y);
    var s :| 0 <= s < |p| && Up(p, p[nodeNo], s) == y;
    UpAdd(p, nodeNo, 1, s);
    UpAbove(p, nodeNo, s + 1);
    LevelStep(p, nodeNo);
    RunIsPrefix(p, m, p[nodeNo], oldCase, |p|, s);
    forall r | 1 <= r <= s + 1
      ensures Up(p, nodeNo, r) != NULL && m[Up(p, nodeNo, r)] == oldCase
    {
      UpAdd(p, nodeNo, 1, r - 1);
    }
  }

  /**
   * Conversely, a proper ancestor painted `oldCase` all the way down to
   * `nodeNo`'s parent is repainted.
   */
  lemma {:induction false} RepaintedRun(m: seq<int>, base: seq<int>, p: seq<int>, nodeNo: int, oldCase: int, newCase: int, s: nat)
    requires Acyclic(p) && |m| == |p| == |base| && 0 <= nodeNo < |p|
    requires 1 <= s && Up(p, nodeNo, s) != NULL
    requires forall r :: 1 <= r <= s ==> Up(p, nodeNo, r) != NULL && m[Up(p, nodeNo, r)] == oldCase
    ensures Repainted(m, base, p, nodeNo, oldCase, newCase)[Up(p, nodeNo, s)] == newCase
  {
    UpAdd(p, nodeNo, 1, s - 1);
    var q := p[nodeNo];
    assert Up(p, nodeNo, 1) == q;
    assert Up(p, q, s - 1) == Up(p, nodeNo, s);
    LevelStep(p, nodeNo);
    forall r | 0 <= r <= s - 1
      ensures Up(p, q, r) != NULL && m[Up(p, q, r)] == oldCase
    {
      UpAdd(p, nodeNo, 1, r);
    }
    RunIsPrefix(p, m, q, oldCase, |p|, s - 1);
  }

  /** The painting of the run's nodes in `newMap` so far, everything else as it was. */
  predicate PaintedSoFar(newMap: seq<int>, base: seq<int>, done: set<int>, newCase: int)
  {
    |newMap| == |base| && forall x :: 0 <= x < |base| ==> newMap[x] == if x in done then newCase else base[x]
  }

  /**
   * `paintUp`: walks up from the parent of `nodeNo` while the old painting is
   * `oldCase`, giving each such node `newCase` in `newMap`. The two maps may
   * be the same array; the walk never reads a node it has already written.
   */
  method PaintUp(oldCase: int, newCase: int, oldMap: array<int>, newMap: array<int>, nodeNo: int, parents: seq<int>)
    requires Acyclic(parents) && 0 <= nodeNo < |parents| && oldMap.Length == newMap.Length == |parents|
    modifies newMap
    ensures newMap[..] == Repainted(old(oldMap[..]), old(newMap[..]), parents, nodeNo, oldCase, newCase)
    ensures oldMap != newMap ==> oldMap[..] == old(oldMap[..])
  {
    ghost var m0 := oldMap[..];
    ghost var b0 := newMap[..];
    ghost var all := Run(parents, m0, parents[nodeNo], oldCase, |parents|);
    if parents[nodeNo] == NULL {
      assert newMap[..] == Repainted(m0, b0, parents, nodeNo, oldCase, newCase);
      return;
    }
    var cur := parents[nodeNo];
    ghost var k: nat := 1;
    ghost var done: set<int> := {};
    LevelStep(parents, nodeNo);
    LevelUp(parents, nodeNo, 1);
    while cur != NULL && oldMap[cur] == oldCase
      invariant 1 <= k <= Level(parents, nodeNo) && Ref(parents, cur) && cur == Up(parents, nodeNo, k)
      invariant Level(parents, cur) == Level(parents, nodeNo) - k
      invariant all == done + Run(parents, m0, cur, oldCase, |parents| - k + 1)
      invariant forall x :: x in done ==> 0 <= x < |parents| && Level(parents, x) > Level(parents, cur)
      invariant PaintedSoFar(newMap[..], b0, done, newCase)
      invariant forall x :: 0 <= x < |parents| && x !in done ==> oldMap[x] == m0[x]
      invariant oldMap != newMap ==> oldMap[..] == m0
      decreases Level(parents, nodeNo) - k
    {
      assert cur !in done;
      LevelStep(parents, cur);
      newMap[cur] := newCase;
      done := done + {cur};
      UpNext(parents, nodeNo, k);
      cur := parents[cur];
      k := k + 1;
    }
    assert Run(parents, m0, cur, oldCase, |parents| - k + 1) == {};
    assert newMap[..] == Repainted(m0, b0, parents, nodeNo, oldCase, newCase);
  }

  // ---------------------------------------------------------------------
  // The operation

  /** The first node whose height changed, or -1. */
  function FirstMoved(oldHeights: seq<real>, newHeights: seq<real>, i: nat): (r: int)
    requires i <= |oldHeights| == |newHeights|
    ensures r == NULL || (i <= r < |oldHeights| && oldHeights[r] != newHeights[r])
    ensures forall k :: i <= k < |oldHeights| && (r == NULL || k < r) ==> oldHeights[k] == newHeights[k]
    decreases |oldHeights| - i
  {
    if i == |oldHeights| then NULL
    else if newHeights[i] != oldHeights[i] then i
    else FirstMoved(oldHeights, newHeights, i + 1)
  }

  /** The last changed node other than `moved` whose new parent is `moved` (`newChild`), or -1. */
  function NewChildUpTo(changed: seq<int>, moved: int, np: seq<int>, k: nat): (r: int)
    requires k <= |changed| && forall i :: 0 <= i < |changed| ==> 0 <= changed[i] < |np|
    ensures r == NULL || (r in changed && r != moved && np[r] == moved)
  {
    if k == 0 then NULL
    else if changed[k - 1] != moved && np[changed[k - 1]] == moved then changed[k - 1]
    else NewChildUpTo(changed, moved, np, k - 1)
  }

  /** The last changed node other than `moved` whose new parent is not `moved` (`oldChild`), or -1. */
  function OldChildUpTo(changed: seq<int>, moved: int, np: seq<int>, k: nat): (r: int)
    requires k <= |changed| && forall i :: 0 <= i < |changed| ==> 0 <= changed[i] < |np|
    ensures r == NULL || (r in changed && r != moved && np[r] != moved)
  {
    if k == 0 then NULL
    else if changed[k - 1] != moved && np[changed[k - 1]] != moved then changed[k - 1]
    else OldChildUpTo(changed, moved, np, k - 1)
  }

  /** The last child in the list that is not `newChild` (`otherChild`), or -1. */
  function OtherChildUpTo(children: seq<int>, newChild: int, k: nat): (r: int)
    requires k <= |children|
    ensures r == NULL || (r in children && r != newChild)
  {
    if k == 0 then NULL
    else if children[k - 1] != newChild then children[k - 1]
    else OtherChildUpTo(children, newChild, k - 1)
  }

  /** Every listed node number is a node. */
  predicate Nodes(xs: seq<int>, n: nat)
  {
    forall i :: 0 <= i < |xs| ==> 0 <= xs[i] < n
  }

  /**
   * The node-swap repainting: the two swapped nodes are read with their old
   * parents; if either had its parent's painting, each is painted up its new
   * ancestry with the other's painting replaced by its own.
   */
  function ExchangeOutcome(m0: seq<int>, op: seq<int>, np: seq<int>, changed: seq<int>): (r: Result<seq<int>, Error>)
    requires Acyclic(op) && Acyclic(np) && |m0| == |op| == |np| && 1 <= |changed| && Nodes(changed, |op|)
    ensures r.Success? ==> |r.value| == |m0|
  {
    var c0 := changed[0];
    if op[c0] == NULL || |changed| < 2 then Failure(IndexOutOfBounds)
    else
      var c1 := changed[1];
      if op[c1] == NULL then Failure(IndexOutOfBounds)
      else if m0[c0] == m0[op[c0]] || m0[c1] == m0[op[c1]] then
        var m1 := Repainted(m0, m0, np, c0, m0[c1], m0[c0]);
        Success(Repainted(m0, m1, np, c1, m0[c0], m0[c1]))
      else Success(m0)
  }

  /**
   * The node-transplant repainting. The moved node is the first whose height
   * changed; among the other changed nodes, the new child is the one now
   * below the moved node and the old child is the one left behind; the other
   * child is the moved node's child that is not the new child.
   */
  function TransplantOutcome(m0: seq<int>, op: seq<int>, np: seq<int>, changed: seq<int>,
                             oldHeights: seq<real>, newHeights: seq<real>, children: seq<seq<int>>): (r: Result<seq<int>, Error>)
    requires Acyclic(op) && Acyclic(np) && |m0| == |op| == |np| == |oldHeights| == |newHeights| == |children|
    requires Nodes(changed, |op|) && forall x :: 0 <= x < |children| ==> Nodes(children[x], |op|)
    ensures r.Success? ==> |r.value| == |m0|
  {
    var moved := FirstMoved(oldHeights, newHeights, 0);
    if moved == NULL then Failure(IndexOutOfBounds)
    else
      var newChild := NewChildUpTo(changed, moved, np, |changed|);
      var oldChild := OldChildUpTo(changed, moved, np, |changed|);
      if oldChild == NULL || newChild == NULL then Failure(OperatorFailed)
      else
        var other := OtherChildUpTo(children[moved], newChild, |children[moved]|);
        assert Nodes(children[moved], |op|);
        if other == NULL then Failure(IndexOutOfBounds)
        else if m0[other] != m0[moved] then Success(m0[moved := m0[newChild]])
        else
          var m1 := Repainted(m0, m0, op, oldChild, m0[moved], m0[oldChild]);
          var m2 := m1[moved := m0[moved]];
          Success(Repainted(m2, m2, np, moved, m2[newChild], m2[moved]))
  }

  /** Both trees are trees over the same nodes, and the heights and branch map cover them. */
  predicate Consistent(before: TreeShape, after: TreeShape, m0: seq<int>, oldHeights: seq<real>, newHeights: seq<real>)
  {
    Shaped(before) && Shaped(after) && |before.parent| == |after.parent| == |m0| == |oldHeights| == |newHeights| &&
    Acyclic(ParentsOf(before)) && Acyclic(ParentsOf(after))
  }

  /** The branch map `doOperation` installs, or the exception it throws. */
  function Outcome(inner: InnerKind, m0: seq<int>, before: TreeShape, after: TreeShape,
                   oldHeights: seq<real>, newHeights: seq<real>): (r: Result<seq<int>, Error>)
    requires Consistent(before, after, m0, oldHeights, newHeights)
  {
    var op := ParentsOf(before);
    var np := ParentsOf(after);
    var changed := ChangedUpTo(op, np, |op|);
    ChangedExactly(op, np, |op|);
    if |changed| == 0 then Success(m0)
    else match inner
      case Exchange => ExchangeOutcome(m0, op, np, changed)
      case SubtreeSlide => TransplantOutcome(m0, op, np, changed, oldHeights, newHeights, after.children)
      case WilsonBalding => TransplantOutcome(m0, op, np, changed, oldHeights, newHeights, after.children)
      case OtherOperator => Failure(OperatorFailed)
  }

  /** When the move changed no parent, the painting stays exactly as it was. */
  lemma {:induction false} NoChangeKeepsPainting(inner: InnerKind, m0: seq<int>, before: TreeShape, after: TreeShape,
                              oldHeights: seq<real>, newHeights: seq<real>)
    requires Consistent(before, after, m0, oldHeights, newHeights)
    requires ParentsOf(before) == ParentsOf(after)
    ensures Outcome(inner, m0, before, after, oldHeights, newHeights) == Success(m0)
  {
    NothingChanged(ParentsOf(before), |ParentsOf(before)|);
  }

  lemma {:induction false} NothingChanged(p: seq<int>, k: nat)
    requires k <= |p|
    ensures ChangedUpTo(p, p, k) == []
  {
    if k > 0 {
      NothingChanged(p, k - 1);
    }
  }

  /** A move of a kind the wrapper does not know fails as soon as it changed a parent. */
  lemma {:induction false} UnknownMoveFails(m0: seq<int>, before: TreeShape, after: TreeShape, oldHeights: seq<real>, newHeights: seq<real>, x: nat)
    requires Consistent(before, after, m0, oldHeights, newHeights)
    requires x < |before.parent| && ParentsOf(before)[x] != ParentsOf(after)[x]
    ensures Outcome(OtherOperator, m0, before, after, oldHeights, newHeights) == Failure(OperatorFailed)
  {
    var op := ParentsOf(before);
    var np := ParentsOf(after);
    ChangedExactly(op, np, |op|);
    assert x in ChangedUpTo(op, np, |op|);
  }

  /** Repainting changes a node only if it is a proper ancestor of where the walk starts. */
  lemma {:induction false} RepaintedFrame(m: seq<int>, base: seq<int>, p: seq<int>, nodeNo: int, oldCase: int, newCase: int, y: int)
    requires Acyclic(p) && |m| == |p| == |base| && 0 <= nodeNo < |p| && 0 <= y < |p|
    requires !Above(p, y, nodeNo)
    ensures Repainted(m, base, p, nodeNo, oldCase, newCase)[y] == base[y]
  {
    if Repainted(m, base, p, nodeNo, oldCase, newCase)[y] != base[y] {
      RepaintedAncestors(m, base, p, nodeNo, oldCase, newCase, y);
    }
  }

  /** A node swap repaints only proper ancestors, in the new tree, of the two swapped nodes. */
  lemma {:induction false} ExchangeFrame(m0: seq<int>, op: seq<int>, np: seq<int>, changed: seq<int>, y: int)
    requires Acyclic(op) && Acyclic(np) && |m0| == |op| == |np| && 2 <= |changed| && Nodes(changed, |op|)
    requires ExchangeOutcome(m0, op, np, changed).Success? && 0 <= y < |m0|
    requires !Above(np, y, changed[0]) && !Above(np, y, changed[1])
    ensures ExchangeOutcome(m0, op, np, changed).value[y] == m0[y]
  {
    var c0 := changed[0];
    var c1 := changed[1];
    if m0[c0] == m0[op[c0]] || m0[c1] == m0[op[c1]] {
      var m1 := Repainted(m0, m0, np, c0, m0[c1], m0[c0]);
      RepaintedFrame(m0, m0, np, c0, m0[c1], m0[c0], y);
      RepaintedFrame(m0, m1, np, c1, m0[c0], m0[c1], y);
    }
  }

  /**
   * A transplant repaints only the moved node, proper ancestors of the old
   * child in the old tree, and proper ancestors of the moved node in the new tree.
   */
  lemma {:induction false} TransplantFrame(m0: seq<int>, op: seq<int>, np: seq<int>, changed: seq<int>,
                        oldHeights: seq<real>, newHeights: seq<real>, children: seq<seq<int>>, y: int)
    requires Acyclic(op) && Acyclic(np) && |m0| == |op| == |np| == |oldHeights| == |newHeights| == |children|
    requires Nodes(changed, |op|) && forall x :: 0 <= x < |children| ==> Nodes(children[x], |op|)
    requires TransplantOutcome(m0, op, np, changed, oldHeights, newHeights, children).Success? && 0 <= y < |m0|
    requires var moved := FirstMoved(oldHeights, newHeights, 0);
      y != moved && !Above(np, y, moved) &&
      !Above(op, y, OldChildUpTo(changed, moved, np, |changed|))
    ensures TransplantOutcome(m0, op, np, changed, oldHeights, newHeights, children).value[y] == m0[y]
  {
    var moved := FirstMoved(oldHeights, newHeights, 0);
    var newChild := NewChildUpTo(changed, moved, np, |changed|);
    var oldChild := OldChildUpTo(changed, moved, np, |changed|);
    var other := OtherChildUpTo(children[moved], newChild, |children[moved]|);
    if m0[other] == m0[moved] {
      var m1 := Repainted(m0, m0, op, oldChild, m0[moved], m0[oldChild]);
      var m2 := m1[moved := m0[moved]];
      RepaintedFrame(m0, m0, op, oldChild, m0[moved], m0[oldChild], y);
      RepaintedFrame(m2, m2, np, moved, m2[newChild], m2[moved], y);
    }
  }

  /** The loop finding the moved node: the first whose height changed. */
  method FindMovedNode(oldHeights: seq<real>, newHeights: seq<real>) returns (movedNode: int)
    requires |oldHeights| == |newHeights|
    ensures movedNode == FirstMoved(oldHeights, newHeights, 0)
  {
    movedNode := NULL;
    var i := 0;
    while i < |oldHeights|
      invariant 0 <= i <= |oldHeights|
      invariant FirstMoved(oldHeights, newHeights, 0) == FirstMoved(oldHeights, newHeights, i)
    {
      if newHeights[i] != oldHeights[i] {
        movedNode := i;
        return;
      }
      i := i + 1;
    }
  }

  /** The loop sorting the changed nodes into the new child and the old child of the moved node. */
  method ClassifyChanged(changed: seq<int>, movedNode: int, newParents: array<int>) returns (oldChild: int, newChild: int)
    requires Nodes(changed, newParents.Length)
    ensures newChild == NewChildUpTo(changed, movedNode, newParents[..], |changed|)
    ensures oldChild == OldChildUpTo(changed, movedNode, newParents[..], |changed|)
  {
    oldChild, newChild := NULL, NULL;
    var k := 0;
    while k < |changed|
      invariant 0 <= k <= |changed|
      invariant newChild == NewChildUpTo(changed, movedNode, newParents[..], k)
      invariant oldChild == OldChildUpTo(changed, movedNode, newParents[..], k)
    {
      var j := changed[k];
      if j != movedNode {
        if newParents[j] == movedNode {
          newChild := j;
        } else {
          oldChild := j;
        }
      }
      k := k + 1;
    }
  }

  /** The loop finding the moved node's other child. */
  method FindOtherChild(children: seq<int>, newChild: int) returns (otherChild: int)
    ensures otherChild == OtherChildUpTo(children, newChild, |children|)
  {
    otherChild := NULL;
    var i := 0;
    while i < |children|
      invariant 0 <= i <= |children| && otherChild == OtherChildUpTo(children, newChild, i)
    {
      if children[i] != newChild {
        otherChild := children[i];
      }
      i := i + 1;
    }
  }

  /** The node-swap branch of `doOperation`, writing into `newBranchMap`. */
  method ExchangeRepaint(branchMap: array<int>, newBranchMap: array<int>, oldParents: array<int>, newParents: array<int>,
                         changed: seq<int>) returns (err: Option<Error>)
    requires branchMap != newBranchMap && newBranchMap[..] == branchMap[..]
    requires newBranchMap != oldParents && newBranchMap != newParents
    requires Acyclic(oldParents[..]) && Acyclic(newParents[..])
    requires branchMap.Length == oldParents.Length == newParents.Length && 1 <= |changed| && Nodes(changed, branchMap.Length)
    modifies newBranchMap
    ensures var outcome := ExchangeOutcome(old(branchMap[..]), oldParents[..], newParents[..], changed);
      (err.None? <==> outcome.Success?) &&
      (err.None? ==> newBranchMap[..] == outcome.value) &&
      (err.Some? ==> outcome == Failure(err.value))
  {
    if oldParents[changed[0]] == NULL || |changed| < 2 || oldParents[changed[1]] == NULL {
      return Some(IndexOutOfBounds);
    }
    var nodePaintings := [branchMap[changed[0]], branchMap[changed[1]]];
    var parentPaintings := [branchMap[oldParents[changed[0]]], branchMap[oldParents[changed[1]]]];
    if nodePaintings[0] == parentPaintings[0] || nodePaintings[1] == parentPaintings[1] {
      PaintUp(nodePaintings[1], nodePaintings[0], branchMap, newBranchMap, changed[0], newParents[..]);
      PaintUp(nodePaintings[0], nodePaintings[1], branchMap, newBranchMap, changed[1], newParents[..]);
    }
    return None;
  }

  /** The node-transplant branch of `doOperation`, writing into `newBranchMap`. */
  method TransplantRepaint(branchMap: array<int>, newBranchMap: array<int>, oldParents: array<int>, newParents: array<int>,
                           changed: seq<int>, oldHeights: seq<real>, newHeights: seq<real>, children: seq<seq<int>>)
    returns (err: Option<Error>)
    requires branchMap != newBranchMap && newBranchMap[..] == branchMap[..]
    requires newBranchMap != oldParents && newBranchMap != newParents
    requires Acyclic(oldParents[..]) && Acyclic(newParents[..])
    requires branchMap.Length == oldParents.Length == newParents.Length == |oldHeights| == |newHeights| == |children|
    requires Nodes(changed, branchMap.Length) && forall x :: 0 <= x < |children| ==> Nodes(children[x], branchMap.Length)
    modifies newBranchMap
    ensures var outcome := TransplantOutcome(old(branchMap[..]), oldParents[..], newParents[..], changed, oldHeights, newHeights, children);
      (err.None? <==> outcome.Success?) &&
      (err.None? ==> newBranchMap[..] == outcome.value) &&
      (err.Some? ==> outcome == Failure(err.value))
  {
    var movedNode := FindMovedNode(oldHeights, newHeights);
    if movedNode == NULL {
      return Some(IndexOutOfBounds);
    }
    var oldChild, newChild := ClassifyChanged(changed, movedNode, newParents);
    if oldChild == NULL || newChild == NULL {
      return Some(OperatorFailed);
    }
    var otherChild := FindOtherChild(children[movedNode], newChild);
    if otherChild == NULL {
      return Some(IndexOutOfBounds);
    }
    if branchMap[otherChild] != branchMap[movedNode] {
      newBranchMap[movedNode] := branchMap[newChild];
    } else {
      ghost var m0 := branchMap[..];
      PaintUp(branchMap[movedNode], branchMap[oldChild], branchMap, newBranchMap, oldChild, oldParents[..]);
      newBranchMap[movedNode] := branchMap[movedNode];
      ghost var m2 := newBranchMap[..];
      assert m2 == Repainted(m0, m0, oldParents[..], oldChild, m0[movedNode], m0[oldChild])[movedNode := m0[movedNode]];
      PaintUp(newBranchMap[newChild], newBranchMap[movedNode], newBranchMap, newBranchMap, movedNode, newParents[..]);
    }
    return None;
  }

  /**
   * `doOperation`: compares the parents before and after the inner move,
   * repaints according to the kind of move, installs the new branch map,
   * marks the likelihood dirty and returns the inner move's Hastings ratio.
   * `innerFailed` is true when the inner move itself throws; that exception
   * passes through before anything is written. On an exception nothing is
   * installed.
   */
  method DoOperation(op: Operator, lik: Painting, before: TreeShape, after: TreeShape,
                     oldHeights: seq<real>, newHeights: seq<real>, innerFailed: bool, hr: real) returns (r: Result<real, Error>)
    requires Consistent(before, after, lik.branchMap[..], oldHeights, newHeights)
    modifies lik
    ensures innerFailed ==> r == Failure(OperatorFailed) && lik.branchMap == old(lik.branchMap) && lik.dirty == old(lik.dirty)
    ensures !innerFailed ==> var outcome := Outcome(op.inner, old(lik.branchMap[..]), before, after, oldHeights, newHeights);
      (r.Success? <==> outcome.Success?) &&
      (r.Success? ==> r.value == hr && lik.dirty && fresh(lik.branchMap) && lik.branchMap[..] == outcome.value) &&
      (r.Failure? ==> outcome == Failure(r.error) && lik.branchMap == old(lik.branchMap) && lik.dirty == old(lik.dirty))
  {
    var branchMap := lik.branchMap;
    var newBranchMap := new int[branchMap.Length](i reads branchMap requires 0 <= i < branchMap.Length => branchMap[i]);
    assert newBranchMap[..] == branchMap[..];
    var oldParents := GetParentsArray(before);
    if innerFailed {
      return Failure(OperatorFailed);
    }
    var newParents := GetParentsArray(after);
    var changed := ChangedNodes(oldParents, newParents);
    ChangedExactly(oldParents[..], newParents[..], oldParents.Length);
    if |changed| != 0 {
      var err: Option<Error>;
      match op.inner {
        case Exchange =>
          err := ExchangeRepaint(branchMap, newBranchMap, oldParents, newParents, changed);
        case SubtreeSlide =>
          err := TransplantRepaint(branchMap, newBranchMap, oldParents, newParents, changed, oldHeights, newHeights, after.children);
        case WilsonBalding =>
          err := TransplantRepaint(branchMap, newBranchMap, oldParents, newParents, changed, oldHeights, newHeights, after.children);
        case OtherOperator =>
          err := Some(OperatorFailed);
      }
      if err.Some? {
        return Failure(err.value);
      }
    }
    lik.branchMap := newBranchMap;
    lik.dirty := true;
    r := Success(hr);
  }
}
