/**
 * The loss configurations `SimpleCophylogenyModel` enumerates for a host
 * lineage: every way the symbiont lineage can die out below a host node,
 * each carried as an `ExtinctionLikelihood` (the factors of the lineages
 * with no event and of the lineages lost). The probabilities themselves
 * come from the model's rate formulas; here they are abstract reals.
 */
module Extinction {
  /** `ExtinctionLikelihood`: the no-event factors and the loss factors of one configuration. */
  datatype ExtinctionLikelihood = ExtinctionLikelihood(eventless: seq<real>, extinct: seq<real>)

  /** `new ExtinctionLikelihood(d)`: the lineage itself is lost, with likelihood `d`. */
  function Single(d: real): ExtinctionLikelihood
  {
    ExtinctionLikelihood([], [d])
  }

  /** The product of the first `k` factors, multiplied left to right from 1.0. */
  function ProductTo(xs: seq<real>, k: nat): real
    requires k <= |xs|
    decreases k, 1
  {
    if k == 0 then 1.0 else Times(xs, k)
  }

  function Times(xs: seq<real>, k: nat): real
    requires 0 < k <= |xs|
    decreases k, 0
  {
    ProductTo(xs, k - 1) * xs[k - 1]
  }

  lemma {:induction false} ProductStep(xs: seq<real>, k: nat, l: real, x: real)
    requires k < |xs| && l == ProductTo(xs, k) && x == xs[k]
    ensures l * x == ProductTo(xs, k + 1)
  {
    assert ProductTo(xs, k + 1) == Times(xs, k + 1);
  }

  /** Every factor of a configuration: the no-event ones, then the loss ones. */
  function Factors(e: ExtinctionLikelihood): seq<real>
  {
    e.eventless + e.extinct
  }

  /** What `getOverallLikelihood` multiplies together. */
  function Overall(e: ExtinctionLikelihood): real
  {
    ProductTo(Factors(e), |Factors(e)|)
  }

  /** `getOverallLikelihood`: one loop over the no-event factors, one over the loss factors. */
  method OverallLikelihood(e: ExtinctionLikelihood) returns (l: real)
    ensures l == Overall(e)
  {
    var fs := Factors(e);
    l := 1.0;
    var i := 0;
    while i < |e.eventless|
      invariant 0 <= i <= |e.eventless| && l == ProductTo(fs, i)
    {
      ProductStep(fs, i, l, e.eventless[i]);
      l := l * e.eventless[i];
      i := i + 1;
    }
    var j := 0;
    while j < |e.extinct|
      invariant 0 <= j <= |e.extinct| && l == ProductTo(fs, i + j)
    {
      ProductStep(fs, i + j, l, e.extinct[j]);
      l := l * e.extinct[j];
      j := j + 1;
    }
  }

  /**
   * `createCombination`: both children's configurations side by side, the
   * parent lineage contributing one more no-event factor. The combination
   * multiplies exactly the factors of both parts and that one.
   */
  function CreateCombination(a: ExtinctionLikelihood, b: ExtinctionLikelihood, noEvent: real): (r: ExtinctionLikelihood)
    ensures |r.eventless| == |a.eventless| + |b.eventless| + 1 && |r.extinct| == |a.extinct| + |b.extinct|
  {
    ExtinctionLikelihood(a.eventless + b.eventless + [noEvent], a.extinct + b.extinct)
  }

  /**
   * A combination multiplies exactly the factors of both parts and the
   * parent's no-event factor, and its lost lineages are those of both parts.
   */
  lemma {:induction false} CombinationFactors(a: ExtinctionLikelihood, b: ExtinctionLikelihood, noEvent: real)
    ensures var r := CreateCombination(a, b, noEvent);
      multiset(Factors(r)) == multiset(Factors(a)) + multiset(Factors(b)) + multiset{noEvent}
      && multiset(r.extinct) == multiset(a.extinct) + multiset(b.extinct)
  {
  }

  /**
   * A host lineage with the factors the model derives from its branch: the
   * likelihood that a symbiont is lost along it, and, for an inner node,
   * that nothing happens along it.
   */
  datatype Lineage =
    | Tip(loss: real)
    | Fork(loss: real, noEvent: real, left: Lineage, right: Lineage)

  /** `a * b`, written as repeated addition so that index arithmetic stays linear. */
  function Mul(a: nat, b: nat): nat
  {
    if a == 0 then 0 else Mul(a - 1, b) + b
  }

  lemma {:induction false} MulIsProduct(a: nat, b: nat)
    ensures Mul(a, b) == a * b
  {
    if a > 0 {
      MulIsProduct(a - 1, b);
      assert (a - 1) * b + b == a * b;
    }
  }

  lemma {:induction false} MulIndex(x: nat, y: nat, n: nat, m: nat)
    requires x < n && y < m
    ensures Mul(x, m) + y < Mul(n, m)
  {
    if x < n - 1 {
      MulIndex(x, y, n - 1, m);
    }
  }

  lemma {:induction false} MulMono(a: nat, b: nat, m: nat)
    requires a <= b
    ensures Mul(a, m) <= Mul(b, m)
    decreases b
  {
    if a < b {
      MulMono(a, b - 1, m);
    }
  }

  /** Every child-1 configuration combined with every child-2 configuration, child 1 major. */
  function Combos(xs: seq<ExtinctionLikelihood>, ys: seq<ExtinctionLikelihood>, noEvent: real): (r: seq<ExtinctionLikelihood>)
    ensures |r| == Mul(|xs|, |ys|)
  {
    if |xs| == 0 then []
    else Combos(xs[..|xs| - 1], ys, noEvent) + Row(xs[|xs| - 1], ys, noEvent)
  }

  function Row(x: ExtinctionLikelihood, ys: seq<ExtinctionLikelihood>, noEvent: real): (r: seq<ExtinctionLikelihood>)
    ensures |r| == |ys| && forall j :: 0 <= j < |ys| ==> r[j] == CreateCombination(x, ys[j], noEvent)
  {
    seq(|ys|, j requires 0 <= j < |ys| => CreateCombination(x, ys[j], noEvent))
  }

  /** What `permuteExtinctLineageLikelihoods` returns: the combinations, then the lineage's own loss. */
  function Permutations(l: Lineage): (r: seq<ExtinctionLikelihood>)
    ensures |r| >= 1
    decreases l, 1
  {
    match l
    case Tip(loss) => [Single(loss)]
    case Fork(_, _, _, _) => ForkPermutations(l)
  }

  /** The configurations of an inner node, unfolded only on demand (see `PermutationsFork`). */
  function ForkPermutations(l: Lineage): seq<ExtinctionLikelihood>
    requires l.Fork?
    decreases l, 0
  {
    Combos(Permutations(l.left), Permutations(l.right), l.noEvent) + [Single(l.loss)]
  }

  /** An inner node's configurations: its children's combinations, then its own loss. */
  lemma {:induction false} PermutationsFork(l: Lineage)
    requires l.Fork?
    ensures Permutations(l) == Combos(Permutations(l.left), Permutations(l.right), l.noEvent) + [Single(l.loss)]
  {
  }

  /** Position `x * |ys| + y` holds the combination of `xs[x]` and `ys[y]`. */
  lemma {:induction false} CombosIndex(xs: seq<ExtinctionLikelihood>, ys: seq<ExtinctionLikelihood>, noEvent: real, x: nat, y: nat)
    requires x < |xs| && y < |ys|
    ensures Mul(x, |ys|) + y < Mul(|xs|, |ys|)
    ensures Combos(xs, ys, noEvent)[Mul(x, |ys|) + y] == CreateCombination(xs[x], ys[y], noEvent)
    decreases |xs|
  {
    MulIndex(x, y, |xs|, |ys|);
    var last := |xs| - 1;
    if x < last {
      CombosIndex(xs[..last], ys, noEvent, x, y);
      assert xs[..last][x] == xs[x];
    }
  }

  /**
   * A leaf has one configuration, its own loss; an inner node has one per
   * pair of its children's configurations, then its own loss last.
   */
  lemma {:induction false} PermutationsSize(l: Lineage)
    ensures var ps := Permutations(l);
      |ps| >= 1 && ps[|ps| - 1] == Single(l.loss)
      && (l.Tip? ==> |ps| == 1)
      && (l.Fork? ==> |ps| == Mul(|Permutations(l.left)|, |Permutations(l.right)|) + 1)
  {
  }

  /** The combinations come in child-1-major order: position `x * |c2| + y` pairs `c1[x]` with `c2[y]`. */
  lemma {:induction false} PermutationsOrder(l: Lineage, x: nat, y: nat)
    requires l.Fork? && x < |Permutations(l.left)| && y < |Permutations(l.right)|
    ensures var c1, c2 := Permutations(l.left), Permutations(l.right);
      Mul(x, |c2|) + y < |Permutations(l)| - 1
      && Permutations(l)[Mul(x, |c2|) + y] == CreateCombination(c1[x], c2[y], l.noEvent)
  {
    CombosIndex(Permutations(l.left), Permutations(l.right), l.noEvent, x, y);
  }

  lemma {:induction false} CombosNext(c1: seq<ExtinctionLikelihood>, x: nat, ys: seq<ExtinctionLikelihood>, noEvent: real)
    requires x < |c1|
    ensures Combos(c1[..x + 1], ys, noEvent) == Combos(c1[..x], ys, noEvent) + Row(c1[x], ys, noEvent)
  {
    assert c1[..x + 1][..x] == c1[..x];
  }

  /**
   * The inner loop of `permuteExtinctLineageLikelihoods`: from position `i`
   * on, `x` combined with each child-2 configuration in turn.
   */
  method FillRow(els: array<ExtinctionLikelihood>, i: nat, x: ExtinctionLikelihood, child2ELs: array<ExtinctionLikelihood>, noEvent: real)
    requires els != child2ELs && i + child2ELs.Length <= els.Length
    modifies els
    ensures els[..i + child2ELs.Length] == old(els[..i]) + Row(x, child2ELs[..], noEvent)
  {
    var y := 0;
    while y < child2ELs.Length
      invariant 0 <= y <= child2ELs.Length
      invariant els[..i] == old(els[..i])
      invariant forall k :: 0 <= k < y ==> els[i + k] == CreateCombination(x, child2ELs[k], noEvent)
    {
      els[i + y] := CreateCombination(x, child2ELs[y], noEvent);
      y := y + 1;
    }
    assert els[..i + y][i..] == Row(x, child2ELs[..], noEvent);
    assert els[..i + y] == els[..i] + els[..i + y][i..];
  }

  /** `permuteExtinctLineageLikelihoods`: recursion on the children, then the nested filling loops. */
  method PermuteExtinctLineageLikelihoods(l: Lineage) returns (els: array<ExtinctionLikelihood>)
    ensures fresh(els) && els[..] == Permutations(l)
    decreases l
  {
    var selfEL := Single(l.loss);
    if l.Tip? {
      els := new ExtinctionLikelihood[1](_ => selfEL);
      assert els[..] == [selfEL];
      return;
    }
    var child1ELs := PermuteExtinctLineageLikelihoods(l.left);
    var child2ELs := PermuteExtinctLineageLikelihoods(l.right);
    els := Combine(child1ELs, child2ELs, l.noEvent, selfEL);
  }

  /**
   * The nested filling loops of `permuteExtinctLineageLikelihoods`: every
   * child-1 configuration combined with every child-2 one, then `selfEL`.
   */
  method Combine(child1ELs: array<ExtinctionLikelihood>, child2ELs: array<ExtinctionLikelihood>, selfNoEvent: real, selfEL: ExtinctionLikelihood)
    returns (els: array<ExtinctionLikelihood>)
    ensures fresh(els) && els[..] == Combos(child1ELs[..], child2ELs[..], selfNoEvent) + [selfEL]
  {
    var n, m := child1ELs.Length, child2ELs.Length;
    MulIsProduct(n, m);
    els := new ExtinctionLikelihood[n * m + 1];
    var i := 0;
    var x := 0;
    while x < n
      invariant 0 <= x <= n && i == Mul(x, m) <= Mul(n, m)
      invariant els[..i] == Combos(child1ELs[..x], child2ELs[..], selfNoEvent)
    {
      MulMono(x + 1, n, m);
      assert Mul(x + 1, m) == i + m;
      FillRow(els, i, child1ELs[x], child2ELs, selfNoEvent);
      CombosNext(child1ELs[..], x, child2ELs[..], selfNoEvent);
      i := i + m;
      x := x + 1;
    }
    assert child1ELs[..x] == child1ELs[..];
    els[i] := selfEL;
    assert els[..] == els[..i] + [selfEL];
  }

  /** The sum of the first `k` configurations' likelihoods, added left to right from 0.0. */
  function TotalTo(els: seq<ExtinctionLikelihood>, k: nat): real
    requires k <= |els|
    decreases k, 1
  {
    if k == 0 then 0.0 else Plus(els, k)
  }

  function Plus(els: seq<ExtinctionLikelihood>, k: nat): real
    requires 0 < k <= |els|
    decreases k, 0
  {
    TotalTo(els, k - 1) + Overall(els[k - 1])
  }

  /** Adding the next configuration's likelihood extends the running sum by one. */
  lemma {:induction false} TotalStep(els: seq<ExtinctionLikelihood>, k: nat)
    requires k < |els|
    ensures TotalTo(els, k + 1) == TotalTo(els, k) + Overall(els[k])
  {
    assert TotalTo(els, k + 1) == Plus(els, k + 1);
  }

  /**
   * `likelihoodLineageLoss`: the sum over the configurations, leaving out
   * the last one (the lineage's own loss) when `excludeRoot`.
   */
  method LikelihoodLineageLoss(l: Lineage, excludeRoot: bool) returns (sum: real)
    ensures var ps := Permutations(l);
      |ps| >= 1 && sum == TotalTo(ps, if excludeRoot then |ps| - 1 else |ps|)
  {
    sum := 0.0;
    var els := PermuteExtinctLineageLikelihoods(l);
    ghost var ps := els[..];
    var n := els.Length - (if excludeRoot then 1 else 0);
    var i := 0;
    while i < n
      invariant 0 <= i <= n && sum == TotalTo(ps, i) && els[..] == ps
    {
      var o := OverallLikelihood(els[i]);
      TotalStep(ps, i);
      sum := sum + o;
      i := i + 1;
    }
  }

  /** With the root included, the sum gains exactly the lineage's own loss. */
  lemma {:induction false} LineageLossRoot(l: Lineage)
    ensures var ps := Permutations(l);
      |ps| >= 1 && TotalTo(ps, |ps|) == TotalTo(ps, |ps| - 1) + l.loss
  {
    PermutationsSize(l);
    SingleOverall(l.loss);
  }

  /**
   * With the root excluded, a leaf sums nothing and an inner node sums
   * exactly its children's combinations.
   */
  lemma {:induction false} LineageLossExcluded(l: Lineage)
    ensures var ps := Permutations(l);
      |ps| >= 1
      && (l.Tip? ==> TotalTo(ps, |ps| - 1) == 0.0)
      && (l.Fork? ==> ps[..|ps| - 1] == Combos(Permutations(l.left), Permutations(l.right), l.noEvent))
  {
    PermutationsSize(l);
  }

  /** A configuration where only the lineage itself is lost is as likely as that loss. */
  lemma {:induction false} SingleOverall(d: real)
    ensures Overall(Single(d)) == d
  {
    var fs := Factors(Single(d));
    assert fs == [d];
    ProductStep(fs, 0, 1.0, d);
  }
}
