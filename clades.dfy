/**
 * Clades of a rooted tree: the set of taxon indices of the leaves below a
 * node (a Java `BitSet` of taxon indices), and the dense clade numbering
 * that the tree annotator keeps in its `clades` map.
 */
module Clades {
  /**
   * A tree node as the tools see it: its BEAST node number, the index of its
   * taxon in the reference taxon list (meaningful at leaves only) and its
   * children in order. A node is external exactly when it has no children.
   */
  datatype Node = Node(number: nat, taxon: nat, children: seq<Node>)

  /** A clade: the taxon indices of the leaves below a node. */
  type Clade = set<nat>

  /** A leaf's clade is its own taxon; an inner node's is the union of its children's. */
  function CladeOf(t: Node): (c: Clade)
    decreases t, 1
  {
    if |t.children| == 0 then {t.taxon} else CladeUpTo(t, |t.children|)
  }

  /** The union of the clades of the first `k` children. */
  function CladeUpTo(t: Node, k: nat): (c: Clade)
    requires k <= |t.children|
    decreases t, 0, k
  {
    if k == 0 then {} else CladeUpTo(t, k - 1) + CladeOf(t.children[k - 1])
  }

  /** Every clade holds at least one taxon. */
  lemma {:induction false} CladeNonEmpty(t: Node)
    ensures CladeOf(t) != {}
    decreases t, 1
  {
    if |t.children| > 0 {
      CladeUpToNonEmpty(t, |t.children|);
    }
  }

  lemma {:induction false} CladeUpToNonEmpty(t: Node, k: nat)
    requires 0 < k <= |t.children|
    ensures CladeUpTo(t, k) != {}
    decreases t, 0, k
  {
    CladeNonEmpty(t.children[k - 1]);
  }

  /** A child's clade is part of its parent's clade. */
  lemma {:induction false} ChildCladeIncluded(t: Node, i: nat)
    requires i < |t.children|
    ensures CladeOf(t.children[i]) <= CladeOf(t)
  {
    CladeUpToGrows(t, i + 1, |t.children|);
  }

  lemma {:induction false} CladeUpToGrows(t: Node, j: nat, k: nat)
    requires j <= k <= |t.children|
    ensures CladeUpTo(t, j) <= CladeUpTo(t, k)
    decreases k
  {
    if j < k {
      CladeUpToGrows(t, j, k - 1);
    }
  }

  /** The node numbers of a subtree. */
  function Numbers(t: Node): (s: set<nat>)
    decreases t, 1
  {
    {t.number} + NumbersUpTo(t, |t.children|)
  }

  /** The node numbers in the subtrees of the first `k` children. */
  function NumbersUpTo(t: Node, k: nat): (s: set<nat>)
    requires k <= |t.children|
    decreases t, 0, k
  {
    if k == 0 then {} else NumbersUpTo(t, k - 1) + Numbers(t.children[k - 1])
  }

  lemma {:induction false} NumbersUpToGrows(t: Node, j: nat, k: nat)
    requires j <= k <= |t.children|
    ensures NumbersUpTo(t, j) <= NumbersUpTo(t, k)
    decreases k
  {
    if j < k {
      NumbersUpToGrows(t, j, k - 1);
    }
  }

  /** The subtree of child `i` lies within its parent's subtree. */
  lemma {:induction false} ChildNumbersIncluded(t: Node, i: nat)
    requires i < |t.children|
    ensures Numbers(t.children[i]) <= NumbersUpTo(t, |t.children|) <= Numbers(t)
  {
    assert Numbers(t.children[i]) <= NumbersUpTo(t, i + 1);
    NumbersUpToGrows(t, i + 1, |t.children|);
  }

  /**
   * Node numbers are distinct: every child subtree is well numbered, the
   * subtrees of different children share no number, and the node's own
   * number appears in none of them.
   */
  predicate WellNumbered(t: Node)
    decreases t, 1
  {
    WellNumberedUpTo(t, |t.children|) && t.number !in NumbersUpTo(t, |t.children|)
  }

  /** The first `k` children are well numbered and their subtrees pairwise disjoint. */
  predicate WellNumberedUpTo(t: Node, k: nat)
    requires k <= |t.children|
    decreases t, 0, k
  {
    k == 0 ||
    (WellNumberedUpTo(t, k - 1) && WellNumbered(t.children[k - 1]) &&
     Numbers(t.children[k - 1]) !! NumbersUpTo(t, k - 1))
  }

  /** In a well-numbered tree, each child is well numbered and disjoint from the earlier ones. */
  lemma {:induction false} ChildWellNumbered(t: Node, i: nat)
    requires WellNumbered(t) && i < |t.children|
    ensures WellNumbered(t.children[i]) && Numbers(t.children[i]) !! NumbersUpTo(t, i)
    ensures t.number !in Numbers(t.children[i])
  {
    WellNumberedPrefix(t, i + 1, |t.children|);
    ChildNumbersIncluded(t, i);
  }

  lemma {:induction false} WellNumberedPrefix(t: Node, j: nat, k: nat)
    requires j <= k <= |t.children| && WellNumberedUpTo(t, k)
    ensures WellNumberedUpTo(t, j)
    decreases k
  {
    if j < k {
      WellNumberedPrefix(t, j, k - 1);
    }
  }

  /** The clades of a subtree's nodes in post-order (children left to right, then the node). */
  function PostOrder(t: Node): (cs: seq<Clade>)
    ensures |cs| >= 1 && cs[|cs| - 1] == CladeOf(t)
    decreases t, 1
  {
    PostOrderUpTo(t, |t.children|) + [CladeOf(t)]
  }

  function PostOrderUpTo(t: Node, k: nat): (cs: seq<Clade>)
    requires k <= |t.children|
    decreases t, 0, k
  {
    if k == 0 then [] else PostOrderUpTo(t, k - 1) + PostOrder(t.children[k - 1])
  }

  /** Every clade listed in post-order is a nonempty part of the root's clade. */
  lemma {:induction false} PostOrderWithinClade(t: Node)
    ensures forall c :: c in PostOrder(t) ==> c != {} && c <= CladeOf(t)
    decreases t, 1
  {
    CladeNonEmpty(t);
    PostOrderUpToWithinClade(t, |t.children|);
  }

  lemma {:induction false} PostOrderUpToWithinClade(t: Node, k: nat)
    requires k <= |t.children|
    ensures forall c :: c in PostOrderUpTo(t, k) ==> c != {} && c <= CladeOf(t)
    decreases t, 0, k
  {
    if k > 0 {
      PostOrderUpToWithinClade(t, k - 1);
      PostOrderWithinClade(t.children[k - 1]);
      ChildCladeIncluded(t, k - 1);
    }
  }

  // ---------------------------------------------------------------------
  // Dense clade numbering

  /**
   * A clade map numbers its clades densely: distinct clades have distinct ids,
   * all below the number of clades, so the ids are exactly 0 .. size-1.
   */
  predicate Dense(m: map<Clade, nat>)
  {
    (forall c :: c in m ==> m[c] < |m|) &&
    (forall c, d :: c in m && d in m && c != d ==> m[c] != m[d])
  }

  /** `clades.put(c, clades.size())` unless `c` is already present. */
  function Register(m: map<Clade, nat>, c: Clade): (r: map<Clade, nat>)
  {
    if c in m then m else m[c := |m|]
  }

  /** Registering clades one after another, in the given order. */
  function RegisterAll(m: map<Clade, nat>, cs: seq<Clade>): (r: map<Clade, nat>)
    decreases |cs|
  {
    if |cs| == 0 then m else Register(RegisterAll(m, cs[..|cs| - 1]), cs[|cs| - 1])
  }

  /** `m` is contained in `r`: every entry of `m` is still there with the same id. */
  predicate Extends(r: map<Clade, nat>, m: map<Clade, nat>)
  {
    forall c :: c in m ==> c in r && r[c] == m[c]
  }

  /** Registering keeps the numbering dense, keeps every old entry and adds `c`. */
  lemma {:induction false} RegisterDense(m: map<Clade, nat>, c: Clade)
    requires Dense(m)
    ensures Dense(Register(m, c)) && Extends(Register(m, c), m)
    ensures c in Register(m, c) && Register(m, c).Keys == m.Keys + {c}
    ensures c !in m ==> Register(m, c)[c] == |m| && |Register(m, c)| == |m| + 1
  {
    if c !in m {
      assert |m[c := |m|]| == |m| + 1;
    }
  }

  /**
   * Registering a list of clades keeps the numbering dense, never changes an
   * existing id, and leaves exactly the old clades and the listed ones in the map.
   */
  lemma {:induction false} RegisterAllDense(m: map<Clade, nat>, cs: seq<Clade>)
    requires Dense(m)
    ensures Dense(RegisterAll(m, cs)) && Extends(RegisterAll(m, cs), m)
    ensures forall c :: c in RegisterAll(m, cs) <==> c in m || c in cs
    decreases |cs|
  {
    if |cs| > 0 {
      var init := cs[..|cs| - 1];
      RegisterAllDense(m, init);
      RegisterDense(RegisterAll(m, init), cs[|cs| - 1]);
      assert cs == init + [cs[|cs| - 1]];
    }
  }

  /** Registering `xs` and then `ys` is registering `xs + ys`. */
  lemma {:induction false} RegisterAllAppend(m: map<Clade, nat>, xs: seq<Clade>, ys: seq<Clade>)
    ensures RegisterAll(m, xs + ys) == RegisterAll(RegisterAll(m, xs), ys)
    decreases |ys|
  {
    if |ys| == 0 {
      assert xs + ys == xs;
    } else {
      var init := ys[..|ys| - 1];
      assert (xs + ys)[..|xs + ys| - 1] == xs + init;
      RegisterAllAppend(m, xs, init);
    }
  }

  /** Registering one more clade of the list. */
  lemma {:induction false} RegisterAllStep(m: map<Clade, nat>, cs: seq<Clade>, j: nat)
    requires j < |cs|
    ensures RegisterAll(m, cs[..j + 1]) == Register(RegisterAll(m, cs[..j]), cs[j])
  {
    assert cs[..j + 1][..j] == cs[..j];
  }

  /** Whatever is registered after a prefix of the list stays registered with the same id. */
  lemma {:induction false} RegisterAllAfterPrefix(m: map<Clade, nat>, cs: seq<Clade>, j: nat)
    requires j <= |cs|
    ensures Extends(RegisterAll(m, cs), RegisterAll(m, cs[..j]))
  {
    assert cs == cs[..j] + cs[j..];
    RegisterAllAppend(m, cs[..j], cs[j..]);
    RegisterExtendsAll(RegisterAll(m, cs[..j]), cs[j..]);
  }

  /** Registering clades never removes or renumbers one. */
  lemma {:induction false} RegisterExtendsAll(m: map<Clade, nat>, cs: seq<Clade>)
    ensures Extends(RegisterAll(m, cs), m)
    decreases |cs|
  {
    if |cs| > 0 {
      RegisterExtendsAll(m, cs[..|cs| - 1]);
    }
  }

  /**
   * Ids follow first-seen order: a clade first met at position `j` of the list
   * gets a larger id than any clade met earlier, and its id is the number of
   * clades known just before it.
   */
  lemma {:induction false} FirstSeenOrder(m: map<Clade, nat>, cs: seq<Clade>, i: nat, j: nat)
    requires Dense(m) && i < j < |cs| && cs[j] !in RegisterAll(m, cs[..j])
    ensures cs[i] in RegisterAll(m, cs) && cs[j] in RegisterAll(m, cs)
    ensures RegisterAll(m, cs)[cs[j]] == |RegisterAll(m, cs[..j])|
    ensures RegisterAll(m, cs)[cs[i]] < RegisterAll(m, cs)[cs[j]]
  {
    var before := RegisterAll(m, cs[..j]);
    var at := RegisterAll(m, cs[..j + 1]);
    RegisterAllStep(m, cs, j);
    assert cs[i] in before && before[cs[i]] < |before| by {
      RegisterAllDense(m, cs[..j]);
      assert cs[i] in cs[..j];
    }
    assert at[cs[i]] == before[cs[i]] && at[cs[j]] == |before|;
    RegisterAllAfterPrefix(m, cs, j + 1);
  }
}
