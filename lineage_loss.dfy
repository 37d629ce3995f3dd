/**
 * The closed form of `likelihoodLineageLoss`: summing the likelihood of every
 * extinct-lineage configuration that `permuteExtinctLineageLikelihoods`
 * enumerates equals a product-and-sum over the lineage tree, without the
 * enumeration.
 */
module LineageLoss {
  import opened Extinction

  /** The product of every factor. */
  function Product(xs: seq<real>): real
  {
    ProductTo(xs, |xs|)
  }

  /** `p1 == q1` when both are one equal factor times equal products, over named values. */
  lemma {:induction false} MulCongruence(p1: real, p0: real, y1: real, q1: real, q0: real, y2: real)
    requires p1 == p0 * y1 && q1 == q0 * y2 && p0 == q0 && y1 == y2
    ensures p1 == q1
  {
  }

  /** `(a * b) * y == a * (b * y)`, over named values. */
  lemma {:induction false} MulAssociates(p1: real, p0: real, y1: real, a: real, b: real, q1: real, y2: real)
    requires p1 == p0 * y1 && p0 == a * b && q1 == b * y2 && y1 == y2
    ensures p1 == a * q1
  {
  }

  /** The first `j` factors of `xs + ys` are those of `xs`. */
  lemma {:induction false} ProductPrefix(xs: seq<real>, ys: seq<real>, j: nat)
    requires j <= |xs|
    ensures ProductTo(xs + ys, j) == ProductTo(xs, j)
  {
    if j > 0 {
      ProductPrefix(xs, ys, j - 1);
      assert ProductTo(xs + ys, j) == Times(xs + ys, j);
      assert ProductTo(xs, j) == Times(xs, j);
      MulCongruence(ProductTo(xs + ys, j), ProductTo(xs + ys, j - 1), (xs + ys)[j - 1],
        ProductTo(xs, j), ProductTo(xs, j - 1), xs[j - 1]);
    }
  }

  /** The product of `xs + ys` up to `|xs| + k` is the product of `xs` times the first `k` factors of `ys`. */
  lemma {:induction false} ProductAppendTo(xs: seq<real>, ys: seq<real>, k: nat)
    requires k <= |ys|
    ensures ProductTo(xs + ys, |xs| + k) == Product(xs) * ProductTo(ys, k)
  {
    if k == 0 {
      ProductPrefix(xs, ys, |xs|);
    } else {
      ProductAppendTo(xs, ys, k - 1);
      assert ProductTo(xs + ys, |xs| + k) == Times(xs + ys, |xs| + k);
      assert ProductTo(ys, k) == Times(ys, k);
      MulAssociates(ProductTo(xs + ys, |xs| + k), ProductTo(xs + ys, |xs| + k - 1), (xs + ys)[|xs| + k - 1],
        Product(xs), ProductTo(ys, k - 1), ProductTo(ys, k), ys[k - 1]);
    }
  }

  /** The product of two runs of factors is the product of their products. */
  lemma {:induction false} ProductAppend(xs: seq<real>, ys: seq<real>)
    ensures Product(xs + ys) == Product(xs) * Product(ys)
  {
    ProductAppendTo(xs, ys, |ys|);
  }

  /** `(e * n) * (a2 * b2) == (a1 * a2) * (b1 * b2) * n` when `e == a1 * b1`, over named values. */
  lemma {:induction false} Rearrange(re: real, rx: real, oa: real, ob: real, a1: real, a2: real, b1: real, b2: real, n: real, e: real)
    requires re == e * n && e == a1 * b1 && rx == a2 * b2 && oa == a1 * a2 && ob == b1 * b2
    ensures re * rx == oa * ob * n
  {
  }

  /** A combination is as likely as both configurations and the parent's no-event factor together. */
  lemma {:induction false} CombinationOverall(a: ExtinctionLikelihood, b: ExtinctionLikelihood, noEvent: real)
    ensures Overall(CreateCombination(a, b, noEvent)) == Overall(a) * Overall(b) * noEvent
  {
    var r := CreateCombination(a, b, noEvent);
    ProductAppend(r.eventless, r.extinct);
    ProductAppend(a.eventless + b.eventless, [noEvent]);
    assert Product([noEvent]) == noEvent by {
      ProductStep([noEvent], 0, 1.0, noEvent);
    }
    ProductAppend(a.eventless, b.eventless);
    ProductAppend(a.extinct, b.extinct);
    ProductAppend(a.eventless, a.extinct);
    ProductAppend(b.eventless, b.extinct);
    Rearrange(Product(r.eventless), Product(r.extinct), Overall(a), Overall(b),
      Product(a.eventless), Product(a.extinct), Product(b.eventless), Product(b.extinct), noEvent,
      Product(a.eventless + b.eventless));
  }

  /** The sum of every configuration's likelihood. */
  function Total(els: seq<ExtinctionLikelihood>): real
  {
    TotalTo(els, |els|)
  }

  /** The first `j` entries of `xs + ys` total as those of `xs`. */
  lemma {:induction false} TotalPrefix(xs: seq<ExtinctionLikelihood>, ys: seq<ExtinctionLikelihood>, j: nat)
    requires j <= |xs|
    ensures TotalTo(xs + ys, j) == TotalTo(xs, j)
  {
    if j > 0 {
      TotalPrefix(xs, ys, j - 1);
      TotalStep(xs + ys, j - 1);
      TotalStep(xs, j - 1);
      assert (xs + ys)[j - 1] == xs[j - 1];
    }
  }

  /** The total of `xs + ys` up to `|xs| + k` is the total of `xs` plus the first `k` of `ys`. */
  lemma {:induction false} TotalAppendTo(xs: seq<ExtinctionLikelihood>, ys: seq<ExtinctionLikelihood>, k: nat)
    requires k <= |ys|
    ensures TotalTo(xs + ys, |xs| + k) == Total(xs) + TotalTo(ys, k)
  {
    if k == 0 {
      TotalPrefix(xs, ys, |xs|);
    } else {
      TotalAppendTo(xs, ys, k - 1);
      TotalStep(xs + ys, |xs| + k - 1);
      TotalStep(ys, k - 1);
      assert (xs + ys)[|xs| + k - 1] == ys[k - 1];
    }
  }

  /** The total of two runs of configurations is the sum of their totals. */
  lemma {:induction false} TotalAppend(xs: seq<ExtinctionLikelihood>, ys: seq<ExtinctionLikelihood>)
    ensures Total(xs + ys) == Total(xs) + Total(ys)
  {
    TotalAppendTo(xs, ys, |ys|);
  }

  /** `o * t * n + o * u * n == o * total * n` when `total == t + u`, over named values. */
  lemma {:induction false} Distribute(lhs1: real, lhs2: real, o: real, t: real, u: real, total: real, n: real)
    requires lhs1 == o * t * n && lhs2 == o * u * n && total == t + u
    ensures lhs1 + lhs2 == o * total * n
  {
  }

  /** `a * t * n + b * t * n == total * t * n` when `total == a + b`, over named values. */
  lemma {:induction false} Factor(lhs1: real, lhs2: real, a: real, b: real, total: real, t: real, n: real)
    requires lhs1 == a * t * n && lhs2 == b * t * n && total == a + b
    ensures lhs1 + lhs2 == total * t * n
  {
  }

  /** `a * b * n == a' * b' * n` when `a == a'` and `b == b'`, over named values. */
  lemma {:induction false} Substitute(p: real, a: real, b: real, a': real, b': real, n: real)
    requires p == a * b * n && a == a' && b == b'
    ensures p == a' * b' * n
  {
  }

  /** The first `k` entries of a row total the child-1 likelihood times the first `k` child-2 likelihoods and the no-event factor. */
  lemma {:induction false} RowTotalTo(x: ExtinctionLikelihood, ys: seq<ExtinctionLikelihood>, noEvent: real, k: nat)
    requires k <= |ys|
    ensures TotalTo(Row(x, ys, noEvent), k) == Overall(x) * TotalTo(ys, k) * noEvent
  {
    var row := Row(x, ys, noEvent);
    if k == 0 {
      Substitute(0.0, Overall(x), 0.0, Overall(x), TotalTo(ys, k), noEvent);
    } else {
      RowTotalTo(x, ys, noEvent, k - 1);
      TotalStep(row, k - 1);
      TotalStep(ys, k - 1);
      CombinationOverall(x, ys[k - 1], noEvent);
      Distribute(TotalTo(row, k - 1), Overall(row[k - 1]), Overall(x), TotalTo(ys, k - 1), Overall(ys[k - 1]), TotalTo(ys, k), noEvent);
    }
  }

  /** A row of combinations totals the child-1 configuration's likelihood times the child-2 total and the no-event factor. */
  lemma {:induction false} RowTotal(x: ExtinctionLikelihood, ys: seq<ExtinctionLikelihood>, noEvent: real)
    ensures Total(Row(x, ys, noEvent)) == Overall(x) * Total(ys) * noEvent
  {
    RowTotalTo(x, ys, noEvent, |ys|);
  }

  /** The total of a sequence is the total of all but its last entry plus the last one's likelihood. */
  lemma {:induction false} TotalLast(xs: seq<ExtinctionLikelihood>)
    requires |xs| > 0
    ensures Total(xs) == Total(xs[..|xs| - 1]) + Overall(xs[|xs| - 1])
  {
    var front := xs[..|xs| - 1];
    assert xs == front + [xs[|xs| - 1]];
    TotalPrefix(front, [xs[|xs| - 1]], |front|);
    TotalStep(xs, |front|);
  }

  /** One more child-1 configuration adds the total of its row. */
  lemma {:induction false} CombosTotalLast(xs: seq<ExtinctionLikelihood>, ys: seq<ExtinctionLikelihood>, noEvent: real)
    requires |xs| > 0
    ensures Total(Combos(xs, ys, noEvent)) == Total(Combos(xs[..|xs| - 1], ys, noEvent)) + Total(Row(xs[|xs| - 1], ys, noEvent))
  {
    var c, r := Combos(xs[..|xs| - 1], ys, noEvent), Row(xs[|xs| - 1], ys, noEvent);
    assert Combos(xs, ys, noEvent) == c + r;
    TotalAppend(c, r);
  }

  /** The combinations total the child-1 total times the child-2 total and the no-event factor. */
  lemma {:induction false} CombosTotal(xs: seq<ExtinctionLikelihood>, ys: seq<ExtinctionLikelihood>, noEvent: real)
    ensures Total(Combos(xs, ys, noEvent)) == Total(xs) * Total(ys) * noEvent
    decreases |xs|
  {
    if |xs| == 0 {
      Substitute(0.0, 0.0, Total(ys), Total(xs), Total(ys), noEvent);
    } else {
      var front := xs[..|xs| - 1];
      var last := xs[|xs| - 1];
      assert Total(Combos(front, ys, noEvent)) == Total(front) * Total(ys) * noEvent by {
        CombosTotal(front, ys, noEvent);
      }
      assert Total(Row(last, ys, noEvent)) == Overall(last) * Total(ys) * noEvent by {
        RowTotal(last, ys, noEvent);
      }
      assert Total(Combos(xs, ys, noEvent)) == Total(Combos(front, ys, noEvent)) + Total(Row(last, ys, noEvent)) by {
        CombosTotalLast(xs, ys, noEvent);
      }
      assert Total(xs) == Total(front) + Overall(last) by {
        TotalLast(xs);
      }
      Factor(Total(Combos(front, ys, noEvent)), Total(Row(last, ys, noEvent)),
        Total(front), Overall(last), Total(xs), Total(ys), noEvent);
    }
  }

  /**
   * The likelihood of losing the lineage, computed on the tree: a leaf is
   * lost with its own loss; an inner node is lost either by its own loss or
   * by both children being lost without an event at the node.
   */
  function LossClosedForm(l: Lineage): real
  {
    match l
    case Tip(loss) => loss
    case Fork(loss, noEvent, left, right) => LossClosedForm(left) * LossClosedForm(right) * noEvent + loss
  }

  /** A single configuration totals its own likelihood. */
  lemma {:induction false} TotalSingle(d: real)
    ensures Total([Single(d)]) == d
  {
    TotalStep([Single(d)], 0);
    SingleOverall(d);
  }

  /**
   * Configurations laid out as an inner node lays them out total the
   * children's totals times the no-event factor, plus the node's own loss.
   */
  lemma {:induction false} ForkTotal(ps: seq<ExtinctionLikelihood>, c1: seq<ExtinctionLikelihood>, c2: seq<ExtinctionLikelihood>, noEvent: real, loss: real, t1: real, t2: real)
    requires ps == Combos(c1, c2, noEvent) + [Single(loss)] && Total(c1) == t1 && Total(c2) == t2
    ensures Total(ps) == t1 * t2 * noEvent + loss
  {
    var cs := Combos(c1, c2, noEvent);
    assert Total(ps) == Total(cs) + loss by {
      TotalAppend(cs, [Single(loss)]);
      TotalSingle(loss);
    }
    CombosTotal(c1, c2, noEvent);
    Substitute(Total(cs), Total(c1), Total(c2), t1, t2, noEvent);
  }

  /** Summing every configuration of a lineage gives the closed form. */
  lemma {:induction false} LineageLossClosedForm(l: Lineage)
    ensures Total(Permutations(l)) == LossClosedForm(l)
  {
    match l
    case Tip(loss) =>
      TotalSingle(loss);
    case Fork(loss, noEvent, left, right) =>
      LineageLossClosedForm(left);
      LineageLossClosedForm(right);
      PermutationsFork(l);
      ForkTotal(Permutations(l), Permutations(left), Permutations(right), noEvent, loss,
        LossClosedForm(left), LossClosedForm(right));
  }

  /**
   * `likelihoodLineageLoss(l, false)` is the closed form, and
   * `likelihoodLineageLoss(l, true)` is the closed form without the
   * lineage's own loss: the product of the children's forms and the
   * no-event factor at an inner node, nothing at a leaf.
   */
  lemma {:induction false} LineageLossValues(l: Lineage)
    ensures var ps := Permutations(l);
      |ps| >= 1
      && TotalTo(ps, |ps|) == LossClosedForm(l)
      && TotalTo(ps, |ps| - 1) == LossClosedForm(l) - l.loss
  {
    LineageLossClosedForm(l);
    LineageLossRoot(l);
  }
}
