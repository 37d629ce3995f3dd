/**
 * The tree annotator initializer: it renumbers the host nodes of every
 * (host tree, symbiont tree) pair by clade, so that the same host clade gets
 * the same `nodeRef` in every tree, and it rewrites each symbiont node's
 * `host.nodeRef` attribute accordingly.
 *
 * A tree's `nodeRef` attributes are an array indexed by node number; a
 * symbiont tree is its array of `host.nodeRef` attributes.
 */
module TreeAnnotator {
  import opened Wrappers
  import opened Clades

  /**
   * Every node of `t` carries as its `nodeRef` the id that `m` gives its clade.
   */
  predicate Annotated(t: Node, refs: seq<int>, m: map<Clade, nat>)
    decreases t
  {
    t.number < |refs| && CladeOf(t) in m && refs[t.number] == m[CladeOf(t)] &&
    forall i :: 0 <= i < |t.children| ==> Annotated(t.children[i], refs, m)
  }

  /**
   * For every node of `t`, the translation table `ids` maps the node's
   * original `nodeRef` (taken from `refs`) to the id of its clade.
   */
  predicate Recorded(t: Node, refs: seq<int>, ids: seq<int>, m: map<Clade, nat>)
    decreases t
  {
    t.number < |refs| && 0 <= refs[t.number] < |ids| &&
    CladeOf(t) in m && ids[refs[t.number]] == m[CladeOf(t)] &&
    forall i :: 0 <= i < |t.children| ==> Recorded(t.children[i], refs, ids, m)
  }

  /** Every node of `t` has a `nodeRef` that indexes a table of `size` entries. */
  predicate RefsWithin(t: Node, refs: seq<int>, size: nat)
  {
    forall x :: x in Numbers(t) ==> x < |refs| && 0 <= refs[x] < size
  }

  /** Distinct nodes of `t` carry distinct original `nodeRef`s. */
  predicate InjectiveOn(t: Node, refs: seq<int>)
  {
    forall x, y :: x in Numbers(t) && y in Numbers(t) && x != y && x < |refs| && y < |refs| ==>
      refs[x] != refs[y]
  }

  /** `a` and `b` agree at every index outside `xs`. */
  predicate SameOutside(a: seq<int>, b: seq<int>, xs: set<nat>)
  {
    |a| == |b| && forall x :: 0 <= x < |a| && x !in xs ==> a[x] == b[x]
  }

  /** No node numbered in `xs` has `k` as its `nodeRef` in `refs`. */
  predicate Untouched(k: int, refs: seq<int>, xs: set<nat>)
  {
    forall x :: x in xs && x < |refs| ==> refs[x] != k
  }

  /** `a` and `b` agree at every index that is no `nodeRef` of a node numbered in `xs`. */
  predicate SameWhereUntouched(a: seq<int>, b: seq<int>, refs: seq<int>, xs: set<nat>)
  {
    |a| == |b| && forall k :: 0 <= k < |a| && Untouched(k, refs, xs) ==> a[k] == b[k]
  }

  /** Annotations survive growing the map and changing `nodeRef`s outside the subtree. */
  lemma {:induction false} AnnotatedFrame(t: Node, r1: seq<int>, r2: seq<int>, m1: map<Clade, nat>, m2: map<Clade, nat>, xs: set<nat>)
    requires Annotated(t, r1, m1) && Extends(m2, m1)
    requires SameOutside(r2, r1, xs) && Numbers(t) !! xs
    ensures Annotated(t, r2, m2)
    decreases t
  {
    forall i | 0 <= i < |t.children|
      ensures Annotated(t.children[i], r2, m2)
    {
      ChildNumbersIncluded(t, i);
      AnnotatedFrame(t.children[i], r1, r2, m1, m2, xs);
    }
  }

  /** Table entries survive growing the map and changing entries no node of the subtree uses. */
  lemma {:induction false} RecordedFrame(t: Node, refs: seq<int>, i1: seq<int>, i2: seq<int>,
                                         m1: map<Clade, nat>, m2: map<Clade, nat>, rs: seq<int>, ys: set<nat>)
    requires Recorded(t, refs, i1, m1) && Extends(m2, m1)
    requires SameWhereUntouched(i2, i1, rs, ys)
    requires forall x :: x in Numbers(t) && x < |refs| ==> Untouched(refs[x], rs, ys)
    ensures Recorded(t, refs, i2, m2)
    decreases t
  {
    forall i | 0 <= i < |t.children|
      ensures Recorded(t.children[i], refs, i2, m2)
    {
      ChildNumbersIncluded(t, i);
      RecordedFrame(t.children[i], refs, i1, i2, m1, m2, rs, ys);
    }
  }

  /**
   * The clade of a node of `t` whose `nodeRef` in `refs` is `r`, searching the
   * node before its children; None when no node of `t` has that `nodeRef`.
   */
  function CladeWithRef(t: Node, refs: seq<int>, r: int): (c: Option<Clade>)
    decreases t, 1
  {
    if t.number < |refs| && refs[t.number] == r then Some(CladeOf(t))
    else CladeWithRefUpTo(t, refs, r, |t.children|)
  }

  function CladeWithRefUpTo(t: Node, refs: seq<int>, r: int, k: nat): (c: Option<Clade>)
    requires k <= |t.children|
    decreases t, 0, k
  {
    if k == 0 then None
    else match CladeWithRefUpTo(t, refs, r, k - 1)
      case Some(c) => Some(c)
      case None => CladeWithRef(t.children[k - 1], refs, r)
  }

  /** The table records, for every original `nodeRef` found in the tree, the id of that node's clade. */
  lemma {:induction false} RecordedLookup(t: Node, refs: seq<int>, ids: seq<int>, m: map<Clade, nat>, r: int)
    requires Recorded(t, refs, ids, m) && CladeWithRef(t, refs, r).Some?
    ensures 0 <= r < |ids| && CladeWithRef(t, refs, r).value in m
    ensures ids[r] == m[CladeWithRef(t, refs, r).value]
    decreases t, 1
  {
    if !(t.number < |refs| && refs[t.number] == r) {
      RecordedLookupUpTo(t, refs, ids, m, r, |t.children|);
    }
  }

  lemma {:induction false} RecordedLookupUpTo(t: Node, refs: seq<int>, ids: seq<int>, m: map<Clade, nat>, r: int, k: nat)
    requires k <= |t.children| && Recorded(t, refs, ids, m) && CladeWithRefUpTo(t, refs, r, k).Some?
    ensures 0 <= r < |ids| && CladeWithRefUpTo(t, refs, r, k).value in m
    ensures ids[r] == m[CladeWithRefUpTo(t, refs, r, k).value]
    decreases t, 0, k
  {
    if CladeWithRefUpTo(t, refs, r, k - 1).Some? {
      RecordedLookupUpTo(t, refs, ids, m, r, k - 1);
    } else {
      RecordedLookup(t.children[k - 1], refs, ids, m, r);
    }
  }

  /** When the search finds nothing, no node of the tree has that `nodeRef`. */
  lemma {:induction false} MissingRefUntouched(t: Node, refs: seq<int>, r: int)
    requires CladeWithRef(t, refs, r).None?
    ensures Untouched(r, refs, Numbers(t))
    decreases t, 1
  {
    MissingRefUntouchedUpTo(t, refs, r, |t.children|);
  }

  lemma {:induction false} MissingRefUntouchedUpTo(t: Node, refs: seq<int>, r: int, k: nat)
    requires k <= |t.children| && CladeWithRefUpTo(t, refs, r, k).None?
    ensures Untouched(r, refs, NumbersUpTo(t, k))
    decreases t, 0, k
  {
    if k > 0 {
      MissingRefUntouchedUpTo(t, refs, r, k - 1);
      MissingRefUntouched(t.children[k - 1], refs, r);
    }
  }

  /**
   * The id a symbiont's `host.nodeRef` of `r` is rewritten to: the id of the
   * clade of the host node that had `nodeRef` `r`, or 0 (the table's initial
   * value) when there is no such node.
   */
  function HostId(h: HostTree, r: int, m: map<Clade, nat>): (id: int)
  {
    match CladeWithRef(h.root, h.nodeRefs, r)
    case Some(c) => if c in m then m[c] else 0
    case None => 0
  }

  /** One host tree, as imported: its root and its nodes' `nodeRef` attributes. */
  datatype HostTree = HostTree(root: Node, nodeRefs: seq<int>)

  /** The clades of a list of host trees, tree by tree, each in post-order. */
  function AllPostOrders(hosts: seq<HostTree>): (cs: seq<Clade>)
  {
    if |hosts| == 0 then [] else AllPostOrders(hosts[..|hosts| - 1]) + PostOrder(hosts[|hosts| - 1].root)
  }

  /** A host tree the annotator can process: distinct node numbers, `nodeRef`s that index its nodes. */
  predicate Importable(h: HostTree)
  {
    WellNumbered(h.root) && RefsWithin(h.root, h.nodeRefs, |h.nodeRefs|)
  }

  /**
   * The state after the first `i` children of `t` have been visited: `bitSet`
   * is the union of their clades, their clades have been registered in
   * post-order, their nodes are annotated, and only their own `nodeRef`s and
   * `ids` entries have changed.
   */
  predicate Visited(t: Node, i: nat, bitSet: Clade, m0: map<Clade, nat>, m: map<Clade, nat>,
                    r0: seq<int>, refs: seq<int>, ids0: seq<int>, ids: seq<int>)
    requires i <= |t.children|
  {
    bitSet == CladeUpTo(t, i) &&
    m == RegisterAll(m0, PostOrderUpTo(t, i)) &&
    (forall j :: 0 <= j < i ==> Annotated(t.children[j], refs, m)) &&
    SameOutside(refs, r0, NumbersUpTo(t, i)) &&
    SameWhereUntouched(ids, ids0, r0, NumbersUpTo(t, i)) &&
    (InjectiveOn(t, r0) ==> forall j :: 0 <= j < i ==> Recorded(t.children[j], r0, ids, m))
  }

  class CladeAnnotator {
    /** Clade -> id, kept across all tree pairs. */
    var clades: map<Clade, nat>
    /** Original host `nodeRef` -> clade id, for the current tree pair. */
    var ids: array<int>

    /** A fresh annotator knows no clade. */
    constructor ()
      ensures clades == map[] && Dense(clades)
    {
      clades := map[];
      ids := new int[0];
    }

    /**
     * Computes the clade of `t`, registers the clades of its subtree in
     * post-order, and replaces each node's `nodeRef` by its clade id, noting
     * `ids[original nodeRef] = id`. Only the subtree's own `nodeRef`s change,
     * and only the `ids` entries at their original values.
     */
    method AddNewClades(t: Node, nodeRef: array<int>) returns (bitSet: Clade)
      requires WellNumbered(t) && nodeRef != ids
      requires RefsWithin(t, nodeRef[..], ids.Length)
      modifies this, ids, nodeRef
      ensures ids == old(ids)
      ensures bitSet == CladeOf(t)
      ensures clades == RegisterAll(old(clades), PostOrder(t))
      ensures Annotated(t, nodeRef[..], clades)
      ensures SameOutside(nodeRef[..], old(nodeRef[..]), Numbers(t))
      ensures SameWhereUntouched(ids[..], old(ids[..]), old(nodeRef[..]), Numbers(t))
      ensures ids[old(nodeRef[t.number])] == clades[CladeOf(t)]
      ensures InjectiveOn(t, old(nodeRef[..])) ==> Recorded(t, old(nodeRef[..]), ids[..], clades)
      decreases t, 2
    {
      ghost var r0 := nodeRef[..];
      ghost var ids0 := ids[..];
      ghost var m0 := clades;
      if |t.children| == 0 {
        bitSet := {t.taxon};
      } else {
        bitSet := AddChildren(t, nodeRef);
      }
      ghost var c1 := clades;
      ghost var n1 := nodeRef[..];
      ghost var i1 := ids[..];
      assert t.number in Numbers(t) && t.number !in NumbersUpTo(t, |t.children|);
      assert n1[t.number] == r0[t.number];
      if bitSet !in clades {
        clades := clades[bitSet := |clades|];
      }
      var id := clades[bitSet];
      ids[nodeRef[t.number]] := id;
      nodeRef[t.number] := id;
      RootStep(t, r0, n1, nodeRef[..], ids0, i1, ids[..], m0, c1, clades);
    }

    /** The loop over the children of an inner node: annotates every child's subtree in order. */
    method AddChildren(t: Node, nodeRef: array<int>) returns (bitSet: Clade)
      requires |t.children| > 0 && WellNumbered(t) && nodeRef != ids
      requires RefsWithin(t, nodeRef[..], ids.Length)
      modifies this, ids, nodeRef
      ensures ids == old(ids) && bitSet == CladeOf(t)
      ensures Visited(t, |t.children|, bitSet, old(clades), clades, old(nodeRef[..]), nodeRef[..], old(ids[..]), ids[..])
      decreases t, 1
    {
      ghost var r0 := nodeRef[..];
      ghost var ids0 := ids[..];
      ghost var m0 := clades;
      bitSet := {};
      NoneVisited(t, m0, r0, ids0);
      for i := 0 to |t.children|
        invariant ids == old(ids) && |ids0| == ids.Length
        invariant Visited(t, i, bitSet, m0, clades, r0, nodeRef[..], ids0, ids[..])
      {
        bitSet := AddChild(t, i, nodeRef, bitSet, r0, ids0, m0);
      }
      AllVisited(t, bitSet, m0, clades, r0, nodeRef[..], ids0, ids[..]);
    }

    /**
     * One turn of the loop over the children of `t`: annotates the subtree of
     * child `i` and adds its clade to `bitSet`.
     */
    method AddChild(t: Node, i: nat, nodeRef: array<int>, bitSet: Clade,
                    ghost r0: seq<int>, ghost ids0: seq<int>, ghost m0: map<Clade, nat>)
      returns (bitSet': Clade)
      requires i < |t.children| && WellNumbered(t) && nodeRef != ids
      requires RefsWithin(t, r0, ids.Length) && |ids0| == ids.Length
      requires Visited(t, i, bitSet, m0, clades, r0, nodeRef[..], ids0, ids[..])
      modifies this, ids, nodeRef
      ensures ids == old(ids)
      ensures Visited(t, i + 1, bitSet', m0, clades, r0, nodeRef[..], ids0, ids[..])
      decreases t, 0
    {
      var child := t.children[i];
      ghost var c1 := clades;
      ghost var n1 := nodeRef[..];
      ghost var i1 := ids[..];
      ChildWellNumbered(t, i);
      assert RefsWithin(child, n1, ids.Length) by {
        ChildNumbersIncluded(t, i);
      }
      var c := AddNewClades(child, nodeRef);
      bitSet' := bitSet + c;
      ChildRegister(t, i, m0, c1, clades);
      ChildStep(t, i, r0, n1, nodeRef[..], ids0, i1, ids[..], c1, clades);
    }

    /**
     * Rewrites every symbiont node's `host.nodeRef` through the table `ids`,
     * node by node. A reference outside the table (NO_HOST's -1, or one past
     * the host's nodes) makes the array access throw: the rewrite stops at
     * that node, `stop`, with `ok` false. Otherwise `stop` is the node count.
     */
    method RemapHosts(hostRefs: array<int>) returns (ok: bool, stop: nat)
      requires hostRefs != ids
      modifies hostRefs
      ensures stop <= hostRefs.Length && (ok <==> stop == hostRefs.Length)
      ensures ok <==> InTable(old(hostRefs[..]), ids.Length)
      ensures !ok ==> !(0 <= old(hostRefs[stop]) < ids.Length)
      ensures forall i :: 0 <= i < stop ==> 0 <= old(hostRefs[i]) < ids.Length && hostRefs[i] == ids[old(hostRefs[i])]
      ensures forall i :: stop <= i < hostRefs.Length ==> hostRefs[i] == old(hostRefs[i])
    {
      var i := 0;
      while i < hostRefs.Length
        invariant i <= hostRefs.Length
        invariant forall j :: 0 <= j < i ==> 0 <= old(hostRefs[j]) < ids.Length && hostRefs[j] == ids[old(hostRefs[j])]
        invariant forall j :: i <= j < hostRefs.Length ==> hostRefs[j] == old(hostRefs[j])
      {
        if !(0 <= hostRefs[i] < ids.Length) {
          assert old(hostRefs[..])[i] == old(hostRefs[i]);
          return false, i;
        }
        hostRefs[i] := ids[hostRefs[i]];
        i := i + 1;
      }
      assert forall j :: 0 <= j < hostRefs.Length ==> old(hostRefs[..])[j] == old(hostRefs[j]);
      return true, i;
    }

    /**
     * One pass of the main loop on a (host tree, symbiont tree) pair: a fresh
     * table sized by the host's node count, the host renumbered by clade, and
     * the symbiont `host.nodeRef`s rewritten to the clade ids of the host
     * nodes they pointed at, up to the first one outside the table, where the
     * pass throws.
     */
    method AnnotatePair(host: Node, hostRefs: array<int>, symbiontHostRefs: array<int>) returns (ok: bool, stop: nat)
      requires WellNumbered(host) && RefsWithin(host, hostRefs[..], hostRefs.Length)
      requires hostRefs != symbiontHostRefs
      modifies this, hostRefs, symbiontHostRefs
      ensures fresh(ids) && ids.Length == hostRefs.Length
      ensures clades == RegisterAll(old(clades), PostOrder(host))
      ensures Annotated(host, hostRefs[..], clades)
      ensures SameOutside(hostRefs[..], old(hostRefs[..]), Numbers(host))
      ensures stop <= symbiontHostRefs.Length && (ok <==> stop == symbiontHostRefs.Length)
      ensures ok <==> InTable(old(symbiontHostRefs[..]), hostRefs.Length)
      ensures InjectiveOn(host, old(hostRefs[..])) ==>
        forall i :: 0 <= i < stop ==>
          symbiontHostRefs[i] == HostId(HostTree(host, old(hostRefs[..])), old(symbiontHostRefs[i]), clades)
      ensures forall i :: stop <= i < symbiontHostRefs.Length ==> symbiontHostRefs[i] == old(symbiontHostRefs[i])
    {
      ghost var r0 := hostRefs[..];
      ids := new int[hostRefs.Length](_ => 0);
      ghost var ids0 := ids[..];
      var _ := AddNewClades(host, hostRefs);
      ok, stop := RemapHosts(symbiontHostRefs);
      if InjectiveOn(host, r0) {
        forall i | 0 <= i < stop
          ensures symbiontHostRefs[i] == HostId(HostTree(host, r0), old(symbiontHostRefs[i]), clades)
        {
          TableLookup(host, r0, ids0, ids[..], clades, old(symbiontHostRefs[i]));
        }
      }
    }

    /**
     * One turn of the main loop: the imported pair becomes mutable trees and
     * is annotated. `ok` is false when a symbiont `host.nodeRef` lies outside
     * the host's table, where the turn throws and the symbiont tree is never
     * written; otherwise the pair is handed back as its rewritten attributes.
     */
    method ProcessPair(h: HostTree, symbiont: seq<int>) returns (hostRefs: seq<int>, symbiontRefs: seq<int>, ok: bool)
      requires Importable(h)
      modifies this
      ensures clades == RegisterAll(old(clades), PostOrder(h.root))
      ensures Annotated(h.root, hostRefs, clades)
      ensures ok <==> InTable(symbiont, |h.nodeRefs|)
      ensures ok ==> PairDone(h, symbiont, symbiontRefs, clades)
    {
      var hostTree := new int[|h.nodeRefs|](i requires 0 <= i < |h.nodeRefs| => h.nodeRefs[i]);
      var symbiontTree := new int[|symbiont|](i requires 0 <= i < |symbiont| => symbiont[i]);
      assert hostTree[..] == h.nodeRefs && symbiontTree[..] == symbiont;
      var stop;
      ok, stop := AnnotatePair(h.root, hostTree, symbiontTree);
      hostRefs, symbiontRefs := hostTree[..], symbiontTree[..];
    }

    /**
     * The main loop: imports host and symbiont trees pairwise until either
     * list runs out, annotates each pair, and returns the rewritten attributes
     * in order. The clade map carries over from pair to pair, so one clade has
     * one id in every host tree. A pair whose symbiont refers outside its
     * host's table throws: the loop ends there with `ok` false, the pairs
     * before it written and that pair's host clades registered.
     */
    method Initialize(hosts: seq<HostTree>, symbionts: seq<seq<int>>)
      returns (hostOut: seq<seq<int>>, symbiontOut: seq<seq<int>>, ok: bool)
      requires forall k :: 0 <= k < |hosts| ==> Importable(hosts[k])
      modifies this
      ensures PairsDone(hosts, symbionts, hostOut, symbiontOut, clades)
      ensures ok <==> |hostOut| == if |hosts| < |symbionts| then |hosts| else |symbionts|
      ensures ok <==> forall k :: 0 <= k < |hosts| && k < |symbionts| ==> InTable(symbionts[k], |hosts[k].nodeRefs|)
      ensures !ok ==> |hostOut| < |hosts| && |hostOut| < |symbionts|
                      && !InTable(symbionts[|hostOut|], |hosts[|hostOut|].nodeRefs|)
      ensures clades == RegisterAll(old(clades), AllPostOrders(hosts[..if ok then |hostOut| else |hostOut| + 1]))
    {
      hostOut, symbiontOut := [], [];
      ghost var m0 := clades;
      var k := 0;
      while k < |hosts| && k < |symbionts|
        invariant |hostOut| == k && PairsDone(hosts, symbionts, hostOut, symbiontOut, clades)
        invariant clades == RegisterAll(m0, AllPostOrders(hosts[..k]))
        invariant PairsInTable(hosts, symbionts, k)
      {
        var hostRefs, symbiontRefs, pairOk := NextPair(hosts, symbionts, hostOut, symbiontOut, k, m0);
        if !pairOk {
          return hostOut, symbiontOut, false;
        }
        PairsInTableStep(hosts, symbionts, k);
        hostOut, symbiontOut := hostOut + [hostRefs], symbiontOut + [symbiontRefs];
        k := k + 1;
      }
      ok := true;
    }

    /** One turn of the main loop: the next pair processed, the earlier pairs' results kept. */
    method NextPair(hosts: seq<HostTree>, symbionts: seq<seq<int>>, hostOut: seq<seq<int>>, symbiontOut: seq<seq<int>>,
                    k: nat, ghost m0: map<Clade, nat>)
      returns (hostRefs: seq<int>, symbiontRefs: seq<int>, ok: bool)
      requires k == |hostOut| && k < |hosts| && k < |symbionts| && Importable(hosts[k])
      requires PairsDone(hosts, symbionts, hostOut, symbiontOut, clades)
      requires clades == RegisterAll(m0, AllPostOrders(hosts[..k]))
      modifies this
      ensures clades == RegisterAll(m0, AllPostOrders(hosts[..k + 1]))
      ensures ok <==> InTable(symbionts[k], |hosts[k].nodeRefs|)
      ensures PairsDone(hosts, symbionts, hostOut, symbiontOut, clades)
      ensures ok ==> PairsDone(hosts, symbionts, hostOut + [hostRefs], symbiontOut + [symbiontRefs], clades)
    {
      var h := hosts[k];
      ghost var m1 := clades;
      hostRefs, symbiontRefs, ok := ProcessPair(h, symbionts[k]);
      AllPostOrdersStep(hosts, k);
      RegisterAllAppend(m0, AllPostOrders(hosts[..k]), PostOrder(h.root));
      RegisterExtendsAll(m1, PostOrder(h.root));
      PairsKept(hosts, symbionts, hostOut, symbiontOut, m1, clades);
      if ok {
        PairsStep(hosts, symbionts, hostOut, symbiontOut, m1, clades, hostRefs, symbiontRefs);
      }
    }
  }

  /** The symbionts of the first `n` pairs refer only inside their hosts' tables. */
  predicate PairsInTable(hosts: seq<HostTree>, symbionts: seq<seq<int>>, n: nat)
  {
    n <= |hosts| && n <= |symbionts| && forall j :: 0 <= j < n ==> InTable(symbionts[j], |hosts[j].nodeRefs|)
  }

  lemma {:induction false} PairsInTableStep(hosts: seq<HostTree>, symbionts: seq<seq<int>>, n: nat)
    requires PairsInTable(hosts, symbionts, n) && n < |hosts| && n < |symbionts|
    requires InTable(symbionts[n], |hosts[n].nodeRefs|)
    ensures PairsInTable(hosts, symbionts, n + 1)
  {
  }

  /** Every reference indexes a table of `n` entries. */
  predicate InTable(refs: seq<int>, n: int)
  {
    forall i :: 0 <= i < |refs| ==> 0 <= refs[i] < n
  }

  /** The clade found by a `nodeRef` search is one of the annotated clades. */
  lemma {:induction false} FoundCladeRegistered(t: Node, refs: seq<int>, r: int, out: seq<int>, m: map<Clade, nat>)
    requires Annotated(t, out, m) && CladeWithRef(t, refs, r).Some?
    ensures CladeWithRef(t, refs, r).value in m
    decreases t, 1
  {
    if !(t.number < |refs| && refs[t.number] == r) {
      FoundCladeRegisteredUpTo(t, refs, r, out, m, |t.children|);
    }
  }

  lemma {:induction false} FoundCladeRegisteredUpTo(t: Node, refs: seq<int>, r: int, out: seq<int>, m: map<Clade, nat>, k: nat)
    requires k <= |t.children| && Annotated(t, out, m) && CladeWithRefUpTo(t, refs, r, k).Some?
    ensures CladeWithRefUpTo(t, refs, r, k).value in m
    decreases t, 0, k
  {
    if CladeWithRefUpTo(t, refs, r, k - 1).Some? {
      FoundCladeRegisteredUpTo(t, refs, r, out, m, k - 1);
    } else {
      FoundCladeRegistered(t.children[k - 1], refs, r, out, m);
    }
  }

  /** The symbiont's host id of a processed pair survives the processing of later pairs. */
  lemma {:induction false} HostIdStable(h: HostTree, r: int, out: seq<int>, m1: map<Clade, nat>, m2: map<Clade, nat>)
    requires Annotated(h.root, out, m1) && Extends(m2, m1)
    ensures HostId(h, r, m2) == HostId(h, r, m1)
  {
    if CladeWithRef(h.root, h.nodeRefs, r).Some? {
      FoundCladeRegistered(h.root, h.nodeRefs, r, out, m1);
    }
  }

  /** The registrations of the first `k + 1` host trees continue those of the first `k`. */
  lemma {:induction false} AllPostOrdersStep(hosts: seq<HostTree>, k: nat)
    requires k < |hosts|
    ensures AllPostOrders(hosts[..k + 1]) == AllPostOrders(hosts[..k]) + PostOrder(hosts[k].root)
  {
    assert hosts[..k + 1][..k] == hosts[..k];
  }

  /**
   * Processing one more pair keeps the results of the earlier pairs: their
   * annotations and their symbionts' host ids are unchanged under the grown map.
   */
  lemma {:induction false} PairsStep(hosts: seq<HostTree>, symbionts: seq<seq<int>>, hostOut: seq<seq<int>>, symbiontOut: seq<seq<int>>,
                                     m1: map<Clade, nat>, m2: map<Clade, nat>, hostRefs: seq<int>, symbiontRefs: seq<int>)
    requires PairsDone(hosts, symbionts, hostOut, symbiontOut, m1) && Extends(m2, m1)
    requires |hostOut| < |hosts| && |hostOut| < |symbionts|
    requires Annotated(hosts[|hostOut|].root, hostRefs, m2) && PairDone(hosts[|hostOut|], symbionts[|hostOut|], symbiontRefs, m2)
    ensures PairsDone(hosts, symbionts, hostOut + [hostRefs], symbiontOut + [symbiontRefs], m2)
  {
    var k := |hostOut|;
    PairsKept(hosts, symbionts, hostOut, symbiontOut, m1, m2);
    forall j | 0 <= j < k
      ensures Annotated(hosts[j].root, (hostOut + [hostRefs])[j], m2)
      ensures PairDone(hosts[j], symbionts[j], (symbiontOut + [symbiontRefs])[j], m2)
    {
      assert (hostOut + [hostRefs])[j] == hostOut[j];
      assert (symbiontOut + [symbiontRefs])[j] == symbiontOut[j];
    }
    assert (hostOut + [hostRefs])[k] == hostRefs;
    assert (symbiontOut + [symbiontRefs])[k] == symbiontRefs;
  }

  /** Registering one more host tree keeps the earlier pairs' annotations and host ids. */
  lemma {:induction false} PairsKept(hosts: seq<HostTree>, symbionts: seq<seq<int>>, hostOut: seq<seq<int>>, symbiontOut: seq<seq<int>>,
                                     m1: map<Clade, nat>, m2: map<Clade, nat>)
    requires PairsDone(hosts, symbionts, hostOut, symbiontOut, m1) && Extends(m2, m1)
    ensures PairsDone(hosts, symbionts, hostOut, symbiontOut, m2)
  {
    forall j | 0 <= j < |hostOut|
      ensures Annotated(hosts[j].root, hostOut[j], m2)
      ensures PairDone(hosts[j], symbionts[j], symbiontOut[j], m2)
    {
      AnnotatedFrame(hosts[j].root, hostOut[j], hostOut[j], m1, m2, {});
      forall i | 0 <= i < |symbionts[j]|
        ensures HostId(hosts[j], symbionts[j][i], m2) == HostId(hosts[j], symbionts[j][i], m1)
      {
        HostIdStable(hosts[j], symbionts[j][i], hostOut[j], m1, m2);
      }
    }
  }

  /**
   * The pairs written so far, one host and one symbiont tree for each pair
   * imported: each host tree annotated by clade against `m`, and each
   * symbiont tree rewritten against its host.
   */
  predicate PairsDone(hosts: seq<HostTree>, symbionts: seq<seq<int>>, hostOut: seq<seq<int>>, symbiontOut: seq<seq<int>>,
                      m: map<Clade, nat>)
  {
    |hostOut| == |symbiontOut| <= |hosts| && |hostOut| <= |symbionts|
    && (forall j :: 0 <= j < |hostOut| ==> Annotated(hosts[j].root, hostOut[j], m))
    && (forall j :: 0 <= j < |hostOut| ==> PairDone(hosts[j], symbionts[j], symbiontOut[j], m))
  }

  /**
   * A symbiont tree has been rewritten against its host: same size and, when
   * the host's original `nodeRef`s are distinct, every `host.nodeRef` replaced
   * by the clade id of the host node it referred to.
   */
  predicate PairDone(h: HostTree, symbiont: seq<int>, out: seq<int>, m: map<Clade, nat>)
  {
    |out| == |symbiont| &&
    (InjectiveOn(h.root, h.nodeRefs) ==> forall i :: 0 <= i < |symbiont| ==> out[i] == HostId(h, symbiont[i], m))
  }

  /** After a pass over a host tree with distinct `nodeRef`s, the table holds `HostId` for every entry. */
  lemma {:induction false} TableLookup(host: Node, r0: seq<int>, ids0: seq<int>, ids: seq<int>, m: map<Clade, nat>, r: int)
    requires Recorded(host, r0, ids, m) && SameWhereUntouched(ids, ids0, r0, Numbers(host))
    requires 0 <= r < |ids| && ids0[r] == 0
    ensures ids[r] == HostId(HostTree(host, r0), r, m)
  {
    if CladeWithRef(host, r0, r).Some? {
      RecordedLookup(host, r0, ids, m, r);
    } else {
      MissingRefUntouched(host, r0, r);
    }
  }

  /** Before the loop no child has been visited and nothing has changed. */
  lemma {:induction false} NoneVisited(t: Node, m0: map<Clade, nat>, r0: seq<int>, ids0: seq<int>)
    ensures Visited(t, 0, {}, m0, m0, r0, r0, ids0, ids0)
  {
    assert CladeUpTo(t, 0) == {} && PostOrderUpTo(t, 0) == [] && NumbersUpTo(t, 0) == {};
  }

  /** After the loop the union of the children's clades is the node's clade. */
  lemma {:induction false} AllVisited(t: Node, bitSet: Clade, m0: map<Clade, nat>, m: map<Clade, nat>,
                                      r0: seq<int>, refs: seq<int>, ids0: seq<int>, ids: seq<int>)
    requires |t.children| > 0
    requires Visited(t, |t.children|, bitSet, m0, m, r0, refs, ids0, ids)
    ensures bitSet == CladeOf(t)
  {
  }

  /** The bookkeeping after one child's subtree has been annotated. */
  lemma {:induction false} ChildStep(t: Node, i: nat, r0: seq<int>, n1: seq<int>, n2: seq<int>, ids0: seq<int>, i1: seq<int>, i2: seq<int>,
                  c1: map<Clade, nat>, c2: map<Clade, nat>)
    requires i < |t.children| && WellNumbered(t)
    requires RefsWithin(t, r0, |ids0|) && |ids0| == |i1| && Extends(c2, c1)
    requires forall j :: 0 <= j < i ==> Annotated(t.children[j], n1, c1)
    requires SameOutside(n1, r0, NumbersUpTo(t, i))
    requires SameWhereUntouched(i1, ids0, r0, NumbersUpTo(t, i))
    requires InjectiveOn(t, r0) ==> forall j :: 0 <= j < i ==> Recorded(t.children[j], r0, i1, c1)
    // what annotating child `i` guarantees
    requires Annotated(t.children[i], n2, c2)
    requires SameOutside(n2, n1, Numbers(t.children[i]))
    requires SameWhereUntouched(i2, i1, n1, Numbers(t.children[i]))
    requires InjectiveOn(t.children[i], n1) ==> Recorded(t.children[i], n1, i2, c2)
    ensures forall j :: 0 <= j < i + 1 ==> Annotated(t.children[j], n2, c2)
    ensures SameOutside(n2, r0, NumbersUpTo(t, i + 1))
    ensures SameWhereUntouched(i2, ids0, r0, NumbersUpTo(t, i + 1))
    ensures InjectiveOn(t, r0) ==> forall j :: 0 <= j < i + 1 ==> Recorded(t.children[j], r0, i2, c2)
  {
    assert NumbersUpTo(t, i + 1) == NumbersUpTo(t, i) + Numbers(t.children[i]);
    ChildAnnotations(t, i, n1, n2, c1, c2);
    ChildIds(t, i, r0, n1, ids0, i1, i2);
    if InjectiveOn(t, r0) {
      ChildRecords(t, i, r0, n1, i1, i2, c1, c2);
    }
  }

  /** Registering one more child's subtree continues the post-order registration. */
  lemma {:induction false} ChildRegister(t: Node, i: nat, m0: map<Clade, nat>, c1: map<Clade, nat>, c2: map<Clade, nat>)
    requires i < |t.children|
    requires c1 == RegisterAll(m0, PostOrderUpTo(t, i))
    requires c2 == RegisterAll(c1, PostOrder(t.children[i]))
    ensures c2 == RegisterAll(m0, PostOrderUpTo(t, i + 1)) && Extends(c2, c1)
  {
    RegisterAllAppend(m0, PostOrderUpTo(t, i), PostOrder(t.children[i]));
    RegisterExtendsAll(c1, PostOrder(t.children[i]));
  }

  /** Annotating child `i` leaves the annotations of the earlier children intact. */
  lemma {:induction false} ChildAnnotations(t: Node, i: nat, n1: seq<int>, n2: seq<int>, c1: map<Clade, nat>, c2: map<Clade, nat>)
    requires i < |t.children| && WellNumbered(t) && Extends(c2, c1)
    requires forall j :: 0 <= j < i ==> Annotated(t.children[j], n1, c1)
    requires SameOutside(n2, n1, Numbers(t.children[i]))
    ensures forall j :: 0 <= j < i ==> Annotated(t.children[j], n2, c2)
  {
    forall j | 0 <= j < i
      ensures Annotated(t.children[j], n2, c2)
    {
      EarlierChildNumbers(t, j, i);
      AnnotatedFrame(t.children[j], n1, n2, c1, c2, Numbers(t.children[i]));
    }
  }

  /** The subtree of an earlier child is among the numbers already visited. */
  lemma {:induction false} EarlierChildNumbers(t: Node, j: nat, i: nat)
    requires j < i <= |t.children|
    ensures Numbers(t.children[j]) <= NumbersUpTo(t, i)
    ensures WellNumbered(t) && i < |t.children| ==> Numbers(t.children[j]) !! Numbers(t.children[i])
  {
    assert NumbersUpTo(t, j + 1) == NumbersUpTo(t, j) + Numbers(t.children[j]);
    NumbersUpToGrows(t, j + 1, i);
    if WellNumbered(t) && i < |t.children| {
      ChildWellNumbered(t, i);
    }
  }

  /** The table changes only at original `nodeRef`s of nodes visited so far. */
  lemma {:induction false} ChildIds(t: Node, i: nat, r0: seq<int>, n1: seq<int>, ids0: seq<int>, i1: seq<int>, i2: seq<int>)
    requires i < |t.children| && WellNumbered(t)
    requires SameOutside(n1, r0, NumbersUpTo(t, i))
    requires SameWhereUntouched(i1, ids0, r0, NumbersUpTo(t, i))
    requires SameWhereUntouched(i2, i1, n1, Numbers(t.children[i]))
    ensures SameWhereUntouched(i2, ids0, r0, NumbersUpTo(t, i + 1))
  {
    var child := t.children[i];
    assert NumbersUpTo(t, i + 1) == NumbersUpTo(t, i) + Numbers(child);
    ChildWellNumbered(t, i);
    forall k | 0 <= k < |i2| && Untouched(k, r0, NumbersUpTo(t, i + 1))
      ensures i2[k] == ids0[k]
    {
      assert Untouched(k, r0, NumbersUpTo(t, i));
      forall y | y in Numbers(child) && y < |n1|
        ensures n1[y] != k
      {
        assert y !in NumbersUpTo(t, i);
      }
    }
  }

  /** With distinct original `nodeRef`s, annotating child `i` keeps every earlier record. */
  lemma {:induction false} ChildRecords(t: Node, i: nat, r0: seq<int>, n1: seq<int>, i1: seq<int>, i2: seq<int>,
                     c1: map<Clade, nat>, c2: map<Clade, nat>)
    requires i < |t.children| && WellNumbered(t) && InjectiveOn(t, r0) && Extends(c2, c1)
    requires forall x :: x in Numbers(t) ==> x < |r0|
    requires forall j :: 0 <= j < i ==> Recorded(t.children[j], r0, i1, c1)
    requires SameOutside(n1, r0, NumbersUpTo(t, i))
    requires SameWhereUntouched(i2, i1, n1, Numbers(t.children[i]))
    requires InjectiveOn(t.children[i], n1) ==> Recorded(t.children[i], n1, i2, c2)
    ensures forall j :: 0 <= j < i + 1 ==> Recorded(t.children[j], r0, i2, c2)
  {
    var child := t.children[i];
    ChildNumbersIncluded(t, i);
    ChildWellNumbered(t, i);
    forall j | 0 <= j < i
      ensures Recorded(t.children[j], r0, i2, c2)
    {
      EarlierChildNumbers(t, j, i);
      ChildNumbersIncluded(t, j);
      forall x | x in Numbers(t.children[j]) && x < |r0|
        ensures Untouched(r0[x], n1, Numbers(child))
      {
        forall y | y in Numbers(child) && y < |n1|
          ensures n1[y] != r0[x]
        {
          assert y !in NumbersUpTo(t, i) && x != y;
        }
      }
      RecordedFrame(t.children[j], r0, i1, i2, c1, c2, n1, Numbers(child));
    }
    assert InjectiveOn(child, n1);
    RecordedFrameRefs(child, n1, r0, i2, c2);
  }

  /** The bookkeeping after the node itself has been registered and renumbered. */
  lemma {:induction false} RootStep(t: Node, r0: seq<int>, n1: seq<int>, n2: seq<int>, ids0: seq<int>, i1: seq<int>, i2: seq<int>,
                 m0: map<Clade, nat>, c1: map<Clade, nat>, c2: map<Clade, nat>)
    requires WellNumbered(t) && RefsWithin(t, r0, |ids0|) && |ids0| == |i1|
    requires Visited(t, |t.children|, CladeUpTo(t, |t.children|), m0, c1, r0, n1, ids0, i1)
    // the node's own step
    requires t.number < |n1| && 0 <= n1[t.number] < |i1|
    requires c2 == Register(c1, CladeOf(t))
    requires n2 == n1[t.number := c2[CladeOf(t)]]
    requires i2 == i1[n1[t.number] := c2[CladeOf(t)]]
    ensures c2 == RegisterAll(m0, PostOrder(t))
    ensures Annotated(t, n2, c2)
    ensures SameOutside(n2, r0, Numbers(t))
    ensures SameWhereUntouched(i2, ids0, r0, Numbers(t))
    ensures i2[r0[t.number]] == c2[CladeOf(t)]
    ensures InjectiveOn(t, r0) ==> Recorded(t, r0, i2, c2)
  {
    assert PostOrder(t)[..|PostOrder(t)| - 1] == PostOrderUpTo(t, |t.children|);
    assert Extends(c2, c1);
    assert n1[t.number] == r0[t.number];
    RootAnnotations(t, n1, n2, c1, c2);
    RootIds(t, r0, n1, ids0, i1, i2, c2[CladeOf(t)]);
    if InjectiveOn(t, r0) {
      RootRecords(t, r0, n1, i1, i2, c1, c2);
    }
  }

  lemma {:induction false} RootAnnotations(t: Node, n1: seq<int>, n2: seq<int>, c1: map<Clade, nat>, c2: map<Clade, nat>)
    requires WellNumbered(t) && Extends(c2, c1) && t.number < |n1| && CladeOf(t) in c2
    requires forall j :: 0 <= j < |t.children| ==> Annotated(t.children[j], n1, c1)
    requires n2 == n1[t.number := c2[CladeOf(t)]]
    ensures Annotated(t, n2, c2)
  {
    forall j | 0 <= j < |t.children|
      ensures Annotated(t.children[j], n2, c2)
    {
      ChildNumbersIncluded(t, j);
      AnnotatedFrame(t.children[j], n1, n2, c1, c2, {t.number});
    }
  }

  lemma {:induction false} RootIds(t: Node, r0: seq<int>, n1: seq<int>, ids0: seq<int>, i1: seq<int>, i2: seq<int>, v: int)
    requires WellNumbered(t) && t.number < |n1| && t.number < |r0| && n1[t.number] == r0[t.number]
    requires 0 <= n1[t.number] < |i1|
    requires SameWhereUntouched(i1, ids0, r0, NumbersUpTo(t, |t.children|))
    requires i2 == i1[n1[t.number] := v]
    ensures SameWhereUntouched(i2, ids0, r0, Numbers(t))
  {
    forall k | 0 <= k < |i2| && Untouched(k, r0, Numbers(t))
      ensures i2[k] == ids0[k]
    {
      assert Untouched(k, r0, NumbersUpTo(t, |t.children|));
    }
  }

  lemma {:induction false} RootRecords(t: Node, r0: seq<int>, n1: seq<int>, i1: seq<int>, i2: seq<int>, c1: map<Clade, nat>, c2: map<Clade, nat>)
    requires WellNumbered(t) && InjectiveOn(t, r0) && Extends(c2, c1) && CladeOf(t) in c2
    requires forall x :: x in Numbers(t) ==> x < |r0|
    requires t.number < |n1| && t.number < |r0| && n1[t.number] == r0[t.number] && 0 <= r0[t.number] < |i1|
    requires forall j :: 0 <= j < |t.children| ==> Recorded(t.children[j], r0, i1, c1)
    requires i2 == i1[n1[t.number] := c2[CladeOf(t)]]
    ensures Recorded(t, r0, i2, c2)
  {
    var xs := {t.number};
    assert SameWhereUntouched(i2, i1, n1, xs);
    forall j | 0 <= j < |t.children|
      ensures Recorded(t.children[j], r0, i2, c2)
    {
      ChildNumbersIncluded(t, j);
      forall x | x in Numbers(t.children[j]) && x < |r0|
        ensures Untouched(r0[x], n1, xs)
      {
        assert x != t.number;
      }
      RecordedFrame(t.children[j], r0, i1, i2, c1, c2, n1, xs);
    }
  }

  /** `Recorded` depends on the original `nodeRef`s of the subtree's own nodes only. */
  lemma {:induction false} RecordedFrameRefs(t: Node, r1: seq<int>, r2: seq<int>, ids: seq<int>, m: map<Clade, nat>)
    requires Recorded(t, r1, ids, m)
    requires forall x :: x in Numbers(t) ==> x < |r1| && x < |r2| && r1[x] == r2[x]
    ensures Recorded(t, r2, ids, m)
    decreases t
  {
    forall i | 0 <= i < |t.children|
      ensures Recorded(t.children[i], r2, ids, m)
    {
      ChildNumbersIncluded(t, i);
      RecordedFrameRefs(t.children[i], r1, r2, ids, m);
    }
  }
}
