/**
 * The containers of the host document that the setup script holds references
 * to (`host_operators`, `host_mcmc`, `host_priors`, `host_likelihoods`,
 * `host_log`, `host_tree_logs`, and the symbiont tree logs once they have
 * moved into the host `mcmc`), as paths, with what an edit of one of them
 * does to the others and to the rest of the document.
 */
module Anchors {
  import opened Wrappers
  import opened Xml
  import opened Edits

  /** Child indices: of the root (`operators`, `mcmc`), of `mcmc`, and of its `posterior`. */
  datatype HostAnchors = HostAnchors(
    operators: nat, mcmc: nat, posterior: nat, prior: nat, likelihood: nat, log: nat,
    treeLogs: seq<nat>, symbiontTreeLogs: seq<nat>)
  {
    function Logs(): seq<nat>
    {
      treeLogs + symbiontTreeLogs
    }

    /** The containers the script appends to: operators, prior, likelihood, log, then every tree log. */
    function Leaves(): (r: seq<seq<nat>>)
      ensures |r| == 4 + |treeLogs| + |symbiontTreeLogs|
    {
      [[operators], [mcmc, posterior, prior], [mcmc, posterior, likelihood], [mcmc, log]]
      + seq(|Logs()|, k requires 0 <= k < |Logs()| => [mcmc, Logs()[k]])
    }
  }

  /** Positions in `Leaves()`. */
  const OperatorsLeaf: nat := 0
  const PriorLeaf: nat := 1
  const LikelihoodsLeaf: nat := 2
  const LogLeaf: nat := 3

  function TreeLogLeaf(k: nat): nat { 4 + k }

  function SymbiontTreeLogLeaf(a: HostAnchors, k: nat): nat { 4 + |a.treeLogs| + k }

  /** The tag every leaf container carries. */
  function LeafTag(i: nat): string
  {
    if i == OperatorsLeaf then "operators"
    else if i == PriorLeaf then "prior"
    else if i == LikelihoodsLeaf then "likelihood"
    else if i == LogLeaf then "log"
    else "logTree"
  }

  predicate TaggedAt(doc: Node, path: seq<nat>, tag: string)
  {
    At(doc, path).Some? && Tagged(At(doc, path).value, tag)
  }

  /** A child found by index is reached by the one-step path. */
  lemma {:induction false} TaggedChild(doc: Node, i: nat, tag: string)
    requires doc.Element? && i < |doc.children| && Tagged(doc.children[i], tag)
    ensures TaggedAt(doc, [i], tag)
  {
    AtChild(doc, i, []);
    assert [i] + [] == [i];
  }

  /** A grandchild found by indices is reached by the two-step path. */
  lemma {:induction false} TaggedGrandchild(doc: Node, i: nat, j: nat, tag: string)
    requires doc.Element? && i < |doc.children| && doc.children[i].Element?
    requires j < |doc.children[i].children| && Tagged(doc.children[i].children[j], tag)
    ensures TaggedAt(doc, [i, j], tag)
  {
    AtChild(doc, i, [j]);
    TaggedChild(doc.children[i], j, tag);
    assert [i] + [j] == [i, j];
  }

  /** A great-grandchild found by indices is reached by the three-step path. */
  lemma {:induction false} TaggedGreatGrandchild(doc: Node, i: nat, j: nat, k: nat, tag: string)
    requires doc.Element? && i < |doc.children| && doc.children[i].Element?
    requires j < |doc.children[i].children| && doc.children[i].children[j].Element?
    requires k < |doc.children[i].children[j].children| && Tagged(doc.children[i].children[j].children[k], tag)
    ensures TaggedAt(doc, [i, j, k], tag)
  {
    AtChild(doc, i, [j, k]);
    TaggedGrandchild(doc.children[i], j, k, tag);
    assert [i] + [j, k] == [i, j, k];
  }

  predicate Increasing(s: seq<nat>)
  {
    forall j, k :: 0 <= j < k < |s| ==> s[j] < s[k]
  }

  /** The references lead to containers with the right tags, and no two coincide. */
  predicate Anchored(doc: Node, a: HostAnchors)
  {
    TaggedAt(doc, [a.mcmc], "mcmc") && TaggedAt(doc, [a.mcmc, a.posterior], "posterior")
    && (forall i :: 0 <= i < |a.Leaves()| ==> TaggedAt(doc, a.Leaves()[i], LeafTag(i)))
    && a.operators != a.mcmc && a.prior != a.likelihood && a.log != a.posterior
    && (forall t :: t in a.Logs() ==> t != a.log && t != a.posterior)
    && Increasing(a.Logs())
  }

  /** A path that leads through none of the containers the script edits. */
  predicate Untouched(a: HostAnchors, q: seq<nat>)
  {
    forall i :: 0 <= i < |a.Leaves()| ==> Disjoint(q, a.Leaves()[i])
  }

  /** The `mcmc` element the references lead into. */
  function Mcmc(doc: Node, a: HostAnchors): Node
    requires Anchored(doc, a)
  {
    At(doc, [a.mcmc]).value
  }

  /** A root child that is neither `operators` nor `mcmc` lies off every leaf. */
  lemma {:induction false} OtherChildUntouched(a: HostAnchors, j: nat)
    requires j != a.operators && j != a.mcmc
    ensures Untouched(a, [j])
  {
    forall i | 0 <= i < |a.Leaves()|
      ensures Disjoint([j], a.Leaves()[i])
    {
      DisjointAt([j], a.Leaves()[i], 0);
    }
  }

  /** The root children the references start from: `operators` and `mcmc`. */
  lemma {:induction false} RootChildren(doc: Node, a: HostAnchors)
    requires Anchored(doc, a)
    ensures doc.Element? && a.operators < |doc.children| && a.mcmc < |doc.children|
    ensures Tagged(doc.children[a.operators], "operators") && Tagged(doc.children[a.mcmc], "mcmc")
  {
    assert TaggedAt(doc, a.Leaves()[OperatorsLeaf], "operators");
    AtChild(doc, a.operators, []);
    AtChild(doc, a.mcmc, []);
    assert [a.operators] + [] == [a.operators] && [a.mcmc] + [] == [a.mcmc];
  }

  /** Two different leaves lead through different nodes. */
  lemma {:induction false} LeavesDisjoint(doc: Node, a: HostAnchors, i: nat, j: nat)
    requires Anchored(doc, a) && i < j < |a.Leaves()|
    ensures Disjoint(a.Leaves()[i], a.Leaves()[j])
  {
    var p, q := a.Leaves()[i], a.Leaves()[j];
    if i == OperatorsLeaf {
      DisjointAt(p, q, 0);
    } else if i == PriorLeaf && j == LikelihoodsLeaf {
      DisjointAt(p, q, 2);
    } else if i <= LogLeaf && j <= LogLeaf {
      DisjointAt(p, q, 1);
    } else {
      var logs := a.Logs();
      assert q == [a.mcmc, logs[j - 4]];
      assert logs[j - 4] in logs;
      if i >= 4 {
        assert p == [a.mcmc, logs[i - 4]];
      }
      DisjointAt(p, q, 1);
    }
  }

  /**
   * Replacing one leaf container by an element with the same tag (the
   * container after an append or an attribute change) keeps every reference
   * valid and every other container, the `mcmc` element's attributes and
   * every untouched node as they were.
   */
  lemma {:induction false} ReplaceLeaf(doc: Node, a: HostAnchors, i: nat, m: Node)
    requires Anchored(doc, a) && i < |a.Leaves()| && Tagged(m, LeafTag(i))
    ensures Anchored(ReplaceAt(doc, a.Leaves()[i], m), a)
    ensures At(ReplaceAt(doc, a.Leaves()[i], m), a.Leaves()[i]) == Some(m)
    ensures forall j :: 0 <= j < |a.Leaves()| && j != i ==>
      At(ReplaceAt(doc, a.Leaves()[i], m), a.Leaves()[j]) == At(doc, a.Leaves()[j])
    ensures Mcmc(ReplaceAt(doc, a.Leaves()[i], m), a).attrs == Mcmc(doc, a).attrs
    ensures |Mcmc(ReplaceAt(doc, a.Leaves()[i], m), a).children| == |Mcmc(doc, a).children|
    ensures forall q {:trigger Untouched(a, q)} :: Untouched(a, q) ==> At(ReplaceAt(doc, a.Leaves()[i], m), q) == At(doc, q)
  {
    var p := a.Leaves()[i];
    var r := ReplaceAt(doc, p, m);
    forall j | 0 <= j < |a.Leaves()| && j != i
      ensures At(r, a.Leaves()[j]) == At(doc, a.Leaves()[j])
    {
      if i < j { LeavesDisjoint(doc, a, i, j); } else { LeavesDisjoint(doc, a, j, i); }
      AtReplaceDisjoint(doc, p, m, a.Leaves()[j]);
    }
    forall q | Untouched(a, q)
      ensures At(r, q) == At(doc, q)
    {
      AtReplaceDisjoint(doc, p, m, q);
    }
    if i == OperatorsLeaf {
      DisjointAt(p, [a.mcmc], 0);
      DisjointAt(p, [a.mcmc, a.posterior], 0);
      AtReplaceDisjoint(doc, p, m, [a.mcmc]);
      AtReplaceDisjoint(doc, p, m, [a.mcmc, a.posterior]);
    } else {
      AtReplaceAbove(doc, p, m, [a.mcmc]);
      if i == PriorLeaf || i == LikelihoodsLeaf {
        AtReplaceAbove(doc, p, m, [a.mcmc, a.posterior]);
      } else {
        if i >= 4 {
          assert a.Logs()[i - 4] in a.Logs();
        }
        DisjointAt(p, [a.mcmc, a.posterior], 1);
        AtReplaceDisjoint(doc, p, m, [a.mcmc, a.posterior]);
      }
    }
  }

  /**
   * Replacing the `mcmc` element by one that keeps its children as a prefix
   * (an attribute change, an append) keeps every reference valid and every
   * container and every existing untouched node as they were.
   */
  lemma {:induction false} ReplaceMcmc(doc: Node, a: HostAnchors, m: Node)
    requires Anchored(doc, a) && Tagged(m, "mcmc") && Mcmc(doc, a).children <= m.children
    ensures Anchored(ReplaceAt(doc, [a.mcmc], m), a)
    ensures Mcmc(ReplaceAt(doc, [a.mcmc], m), a) == m
    ensures forall j :: 0 <= j < |a.Leaves()| ==> At(ReplaceAt(doc, [a.mcmc], m), a.Leaves()[j]) == At(doc, a.Leaves()[j])
    ensures forall q {:trigger Untouched(a, q)} :: Untouched(a, q) && At(doc, q).Some? ==> At(ReplaceAt(doc, [a.mcmc], m), q) == At(doc, q)
  {
    var p: seq<nat> := [a.mcmc];
    var r := ReplaceAt(doc, p, m);
    forall j | 0 <= j < |a.Leaves()|
      ensures At(r, a.Leaves()[j]) == At(doc, a.Leaves()[j])
    {
      if j == OperatorsLeaf {
        DisjointAt(p, a.Leaves()[j], 0);
        AtReplaceDisjoint(doc, p, m, a.Leaves()[j]);
      } else {
        AtReplaceBelow(doc, p, m, a.Leaves()[j]);
      }
    }
    AtReplaceBelow(doc, p, m, [a.mcmc, a.posterior]);
    forall q | Untouched(a, q) && At(doc, q).Some?
      ensures At(r, q) == At(doc, q)
    {
      assert Disjoint(q, a.Leaves()[PriorLeaf]);
      if q[0] != a.mcmc {
        DisjointAt(p, q, 0);
        AtReplaceDisjoint(doc, p, m, q);
      } else {
        assert p < q;
        AtReplaceBelow(doc, p, m, q);
      }
    }
  }

  /** The containers the references lead to, in the order of `Leaves()`. */
  function Contents(doc: Node, a: HostAnchors): (r: seq<Node>)
    requires Anchored(doc, a)
    ensures |r| == |a.Leaves()|
    ensures forall i :: 0 <= i < |r| ==> At(doc, a.Leaves()[i]) == Some(r[i]) && Tagged(r[i], LeafTag(i))
  {
    seq(|a.Leaves()|, i requires 0 <= i < |a.Leaves()| => At(doc, a.Leaves()[i]).value)
  }

  /**
   * `container.append(x)` for each `x` on one leaf container: that container
   * gains `xs` after its children, and nothing else the references reach, or
   * that lies off them, changes.
   */
  lemma {:induction false} AppendLeaf(doc: Node, a: HostAnchors, i: nat, xs: seq<Node>)
    requires Anchored(doc, a) && i < |a.Leaves()|
    ensures At(doc, a.Leaves()[i]).Some? && At(doc, a.Leaves()[i]).value.Element?
    ensures Anchored(AppendAt(doc, a.Leaves()[i], xs), a)
    ensures Contents(AppendAt(doc, a.Leaves()[i], xs), a)
      == Contents(doc, a)[i := AppendChildren(Contents(doc, a)[i], xs)]
    ensures Mcmc(AppendAt(doc, a.Leaves()[i], xs), a).attrs == Mcmc(doc, a).attrs
    ensures |Mcmc(AppendAt(doc, a.Leaves()[i], xs), a).children| == |Mcmc(doc, a).children|
    ensures forall q {:trigger Untouched(a, q)} :: Untouched(a, q) ==> At(AppendAt(doc, a.Leaves()[i], xs), q) == At(doc, q)
  {
    var c := Contents(doc, a);
    var m := AppendChildren(c[i], xs);
    ReplaceLeaf(doc, a, i, m);
    var c' := Contents(AppendAt(doc, a.Leaves()[i], xs), a);
    assert forall j :: 0 <= j < |c| ==> c'[j] == c[i := m][j];
  }

  /** `mcmc.set(key, value)`: the `mcmc` attributes change, every container and untouched node stays. */
  lemma {:induction false} SetMcmcAttr(doc: Node, a: HostAnchors, key: string, value: string)
    requires Anchored(doc, a)
    ensures Anchored(SetAttrAt(doc, [a.mcmc], key, value), a)
    ensures Mcmc(SetAttrAt(doc, [a.mcmc], key, value), a) == SetAttr(Mcmc(doc, a), key, value)
    ensures Contents(SetAttrAt(doc, [a.mcmc], key, value), a) == Contents(doc, a)
    ensures forall q {:trigger Untouched(a, q)} :: Untouched(a, q) && At(doc, q).Some? ==> At(SetAttrAt(doc, [a.mcmc], key, value), q) == At(doc, q)
  {
    ReplaceMcmc(doc, a, SetAttr(Mcmc(doc, a), key, value));
    var c, c' := Contents(doc, a), Contents(SetAttrAt(doc, [a.mcmc], key, value), a);
    assert forall j :: 0 <= j < |c| ==> c'[j] == c[j];
  }

  /** `container.set(key, value)` on one leaf container: only its attributes change. */
  lemma {:induction false} SetLeafAttr(doc: Node, a: HostAnchors, i: nat, key: string, value: string)
    requires Anchored(doc, a) && i < |a.Leaves()|
    ensures At(doc, a.Leaves()[i]).Some? && At(doc, a.Leaves()[i]).value.Element?
    ensures Anchored(SetAttrAt(doc, a.Leaves()[i], key, value), a)
    ensures Contents(SetAttrAt(doc, a.Leaves()[i], key, value), a)
      == Contents(doc, a)[i := SetAttr(Contents(doc, a)[i], key, value)]
    ensures Mcmc(SetAttrAt(doc, a.Leaves()[i], key, value), a).attrs == Mcmc(doc, a).attrs
    ensures |Mcmc(SetAttrAt(doc, a.Leaves()[i], key, value), a).children| == |Mcmc(doc, a).children|
    ensures forall q {:trigger Untouched(a, q)} :: Untouched(a, q) ==> At(SetAttrAt(doc, a.Leaves()[i], key, value), q) == At(doc, q)
  {
    var c := Contents(doc, a);
    var m := SetAttr(c[i], key, value);
    ReplaceLeaf(doc, a, i, m);
    var c' := Contents(SetAttrAt(doc, a.Leaves()[i], key, value), a);
    assert forall j :: 0 <= j < |c| ==> c'[j] == c[i := m][j];
  }

  /** Indices `s` counted from `base`. */
  function Offset(s: seq<nat>, base: nat): (r: seq<nat>)
    ensures |r| == |s| && forall k :: 0 <= k < |s| ==> r[k] == base + s[k]
  {
    seq(|s|, k requires 0 <= k < |s| => base + s[k])
  }

  /**
   * Appending elements to `mcmc` keeps every reference and container, and
   * the tree logs among the appended elements become referenced too, at
   * their new positions.
   */
  lemma {:induction false} AdoptSymbiontLogs(doc: Node, a: HostAnchors, xs: seq<Node>)
    requires Anchored(doc, a) && a.symbiontTreeLogs == []
    ensures Anchored(AppendAt(doc, [a.mcmc], xs), Adopted(doc, a, xs))
    ensures At(AppendAt(doc, [a.mcmc], xs), [a.mcmc]) == Some(AppendChildren(Mcmc(doc, a), xs))
    ensures |a.Leaves()| <= |Adopted(doc, a, xs).Leaves()|
    ensures forall j :: 0 <= j < |a.Leaves()| ==> Adopted(doc, a, xs).Leaves()[j] == a.Leaves()[j]
    ensures forall j :: 0 <= j < |a.Leaves()| ==> At(AppendAt(doc, [a.mcmc], xs), a.Leaves()[j]) == At(doc, a.Leaves()[j])
    ensures forall t :: 0 <= t < |xs| ==>
      At(AppendAt(doc, [a.mcmc], xs), [a.mcmc, |Mcmc(doc, a).children| + t]) == Some(xs[t])
    ensures forall q {:trigger Untouched(Adopted(doc, a, xs), q)} :: Untouched(Adopted(doc, a, xs), q) && At(doc, q).Some? ==> At(AppendAt(doc, [a.mcmc], xs), q) == At(doc, q)
  {
    var base := |Mcmc(doc, a).children|;
    AdoptedAnchored(doc, a, xs);
    ReplaceMcmc(doc, a, AppendChildren(Mcmc(doc, a), xs));
    ExtendedLeaves(a, Offset(FindAll(xs, "logTree"), base));
    AppendedChildren(AppendAt(doc, [a.mcmc], xs), a.mcmc, base, xs);
  }

  lemma {:induction false} AdoptedAnchored(doc: Node, a: HostAnchors, xs: seq<Node>)
    requires Anchored(doc, a) && a.symbiontTreeLogs == []
    ensures Anchored(AppendAt(doc, [a.mcmc], xs), Adopted(doc, a, xs))
  {
    var base := |Mcmc(doc, a).children|;
    var r := AppendAt(doc, [a.mcmc], xs);
    var found := FindAll(xs, "logTree");
    var extra := Offset(found, base);
    ReplaceMcmc(doc, a, AppendChildren(Mcmc(doc, a), xs));
    assert TaggedAt(r, [a.mcmc], "mcmc");
    AtReplaceBelow(doc, [a.mcmc], AppendChildren(Mcmc(doc, a), xs), [a.mcmc, a.posterior]);
    assert TaggedAt(r, [a.mcmc, a.posterior], "posterior");
    AppendedChildren(r, a.mcmc, base, xs);
    AppendedTreeLogs(r, a.mcmc, base, xs);
    AnchoredExtended(doc, r, a, extra);
  }

  /** The tree logs among elements appended after `base` children sit at their offset positions. */
  lemma {:induction false} AppendedTreeLogs(r: Node, i: nat, base: nat, xs: seq<Node>)
    requires forall t :: 0 <= t < |xs| ==> At(r, [i, base + t]) == Some(xs[t])
    ensures forall k :: 0 <= k < |Offset(FindAll(xs, "logTree"), base)| ==>
      TaggedAt(r, [i, Offset(FindAll(xs, "logTree"), base)[k]], "logTree")
    ensures Increasing(Offset(FindAll(xs, "logTree"), base))
    ensures forall x :: x in Offset(FindAll(xs, "logTree"), base) ==> x >= base
  {
    var found := FindAll(xs, "logTree");
    var extra := Offset(found, base);
    forall k | 0 <= k < |extra|
      ensures TaggedAt(r, [i, extra[k]], "logTree")
    {
      assert found[k] in found;
    }
    assert Increasing(extra);
  }

  /** `iterfind('logTree')` over a list of elements: the tree logs among them, in order. */
  function TreeLogsIn(xs: seq<Node>): (r: seq<Node>)
    ensures |r| == |FindAll(xs, "logTree")|
    ensures forall k :: 0 <= k < |r| ==> Tagged(r[k], "logTree") && r[k] in xs
  {
    var found := FindAll(xs, "logTree");
    seq(|found|, k requires 0 <= k < |found| => assert found[k] in found; xs[found[k]])
  }

  /** After the append, the containers are the old ones followed by the appended tree logs. */
  lemma {:induction false} AdoptedContents(doc: Node, a: HostAnchors, xs: seq<Node>)
    requires Anchored(doc, a) && a.symbiontTreeLogs == []
    ensures Anchored(AppendAt(doc, [a.mcmc], xs), Adopted(doc, a, xs))
    ensures Contents(AppendAt(doc, [a.mcmc], xs), Adopted(doc, a, xs)) == Contents(doc, a) + TreeLogsIn(xs)
  {
    AdoptSymbiontLogs(doc, a, xs);
    var base := |Mcmc(doc, a).children|;
    var r := AppendAt(doc, [a.mcmc], xs);
    var found := FindAll(xs, "logTree");
    var extra, ys := Offset(found, base), TreeLogsIn(xs);
    forall k | 0 <= k < |extra|
      ensures At(r, [a.mcmc, extra[k]]) == Some(ys[k])
    {
      assert found[k] in found;
    }
    ContentsExtended(doc, r, a, extra, ys);
  }

  lemma {:induction false} ContentsExtended(doc: Node, r: Node, a: HostAnchors, extra: seq<nat>, ys: seq<Node>)
    requires Anchored(doc, a) && a.symbiontTreeLogs == [] && Anchored(r, a.(symbiontTreeLogs := extra))
    requires forall j :: 0 <= j < |a.Leaves()| ==> At(r, a.Leaves()[j]) == At(doc, a.Leaves()[j])
    requires |extra| == |ys| && forall k :: 0 <= k < |extra| ==> At(r, [a.mcmc, extra[k]]) == Some(ys[k])
    ensures Contents(r, a.(symbiontTreeLogs := extra)) == Contents(doc, a) + ys
  {
    var a' := a.(symbiontTreeLogs := extra);
    ExtendedLeaves(a, extra);
    var c, c' := Contents(doc, a), Contents(r, a');
    forall j | 0 <= j < |c'|
      ensures c'[j] == (c + ys)[j]
    {
      if j >= |c| {
        assert a'.Leaves()[j] == [a.mcmc, extra[j - |c|]];
      }
    }
  }

  /** The references once the elements `xs` have been appended to `mcmc`. */
  function Adopted(doc: Node, a: HostAnchors, xs: seq<Node>): HostAnchors
    requires Anchored(doc, a)
  {
    a.(symbiontTreeLogs := Offset(FindAll(xs, "logTree"), |Mcmc(doc, a).children|))
  }

  /**
   * A document that keeps every container of `a` and has further tree logs,
   * in increasing order after the old children of `mcmc`, is anchored by `a`
   * extended with them.
   */
  lemma {:induction false} AnchoredExtended(doc: Node, r: Node, a: HostAnchors, extra: seq<nat>)
    requires Anchored(doc, a) && a.symbiontTreeLogs == []
    requires TaggedAt(r, [a.mcmc], "mcmc") && TaggedAt(r, [a.mcmc, a.posterior], "posterior")
    requires forall j :: 0 <= j < |a.Leaves()| ==> At(r, a.Leaves()[j]) == At(doc, a.Leaves()[j])
    requires Increasing(extra) && forall x :: x in extra ==> x >= |Mcmc(doc, a).children|
    requires forall k :: 0 <= k < |extra| ==> TaggedAt(r, [a.mcmc, extra[k]], "logTree")
    ensures Anchored(r, a.(symbiontTreeLogs := extra))
  {
    var a' := a.(symbiontTreeLogs := extra);
    ExtendedLeaves(a, extra);
    IndicesBelow(doc, a);
    assert a.Logs() == a.treeLogs;
    assert a'.Logs() == a.treeLogs + extra;
    forall i | 0 <= i < |a'.Leaves()|
      ensures TaggedAt(r, a'.Leaves()[i], LeafTag(i))
    {
      if i < |a.Leaves()| {
        assert TaggedAt(doc, a.Leaves()[i], LeafTag(i));
      } else {
        assert a'.Leaves()[i] == [a.mcmc, extra[i - |a.Leaves()|]];
      }
    }
    var u := a'.Logs();
    forall j, k | 0 <= j < k < |u|
      ensures u[j] < u[k]
    {
      if k < |a.treeLogs| {
      } else if j < |a.treeLogs| {
        assert u[j] in a.Logs() && u[k] in extra;
      } else {
        assert u[j] == extra[j - |a.treeLogs|];
      }
    }
    forall t | t in u
      ensures t != a.log && t != a.posterior
    {
      if t !in a.Logs() {
        assert t in extra;
      }
    }
  }

  /** Referencing more tree logs keeps the leaves referenced so far and narrows what is untouched. */
  lemma {:induction false} ExtendedLeaves(a: HostAnchors, extra: seq<nat>)
    requires a.symbiontTreeLogs == []
    ensures var a' := a.(symbiontTreeLogs := extra);
      |a'.Leaves()| == |a.Leaves()| + |extra|
      && (forall j :: 0 <= j < |a.Leaves()| ==> a'.Leaves()[j] == a.Leaves()[j])
      && (forall j :: 0 <= j < |extra| ==> a'.Leaves()[|a.Leaves()| + j] == [a.mcmc, extra[j]])
      && forall q :: Untouched(a', q) ==> Untouched(a, q)
  {
    var a' := a.(symbiontTreeLogs := extra);
    assert a'.Logs()[..|a.Logs()|] == a.Logs();
    forall j | 0 <= j < |a.Leaves()|
      ensures a'.Leaves()[j] == a.Leaves()[j]
    {
    }
  }

  /** The children appended to the node at `[i]` are found right after the old ones. */
  lemma {:induction false} AppendedChildren(r: Node, i: nat, base: nat, xs: seq<Node>)
    requires At(r, [i]).Some? && At(r, [i]).value.Element?
    requires |At(r, [i]).value.children| == base + |xs| && At(r, [i]).value.children[base..] == xs
    ensures forall t :: 0 <= t < |xs| ==> At(r, [i, base + t]) == Some(xs[t])
  {
    forall t | 0 <= t < |xs|
      ensures At(r, [i, base + t]) == Some(xs[t])
    {
      AtConcat(r, [i], [base + t]);
      assert [i] + [base + t] == [i, base + t];
      assert At(r, [i]).value.children[base + t] == xs[t];
    }
  }

  /** Every index into `mcmc` that the references use is below its number of children. */
  lemma {:induction false} IndicesBelow(doc: Node, a: HostAnchors)
    requires Anchored(doc, a)
    ensures a.log < |Mcmc(doc, a).children| && a.posterior < |Mcmc(doc, a).children|
    ensures forall t :: t in a.Logs() ==> t < |Mcmc(doc, a).children|
  {
    AtConcat(doc, [a.mcmc], [a.log]);
    assert [a.mcmc] + [a.log] == a.Leaves()[LogLeaf];
    AtConcat(doc, [a.mcmc], [a.posterior]);
    assert [a.mcmc] + [a.posterior] == [a.mcmc, a.posterior];
    forall t | t in a.Logs()
      ensures t < |Mcmc(doc, a).children|
    {
      var k :| 0 <= k < |a.Logs()| && a.Logs()[k] == t;
      assert TaggedAt(doc, a.Leaves()[4 + k], "logTree");
      AtConcat(doc, [a.mcmc], [t]);
      assert [a.mcmc] + [t] == a.Leaves()[4 + k];
    }
  }

  /** The references once `count` children are inserted into the root at `at`. */
  function ShiftAnchors(a: HostAnchors, at: nat, count: nat): HostAnchors
  {
    a.(operators := Shifted(a.operators, at, count), mcmc := Shifted(a.mcmc, at, count))
  }

  /**
   * Inserting children into the root moves every container with the shift
   * and leaves it as it was; a path untouched before is untouched after.
   */
  lemma {:induction false} InsertIntoRoot(doc: Node, a: HostAnchors, at: nat, items: seq<Node>)
    requires Anchored(doc, a) && doc.Element? && at <= |doc.children|
    ensures var doc', a' := doc.(children := doc.children[..at] + items + doc.children[at..]), ShiftAnchors(a, at, |items|);
      Anchored(doc', a')
      && (forall j :: 0 <= j < |a.Leaves()| ==> At(doc', a'.Leaves()[j]) == At(doc, a.Leaves()[j]))
      && Mcmc(doc', a') == Mcmc(doc, a)
      && Contents(doc', a') == Contents(doc, a)
      && (forall q :: q != [] && Untouched(a, q) ==> Untouched(a', ShiftPath(q, at, |items|)))
  {
    var doc', a' := doc.(children := doc.children[..at] + items + doc.children[at..]), ShiftAnchors(a, at, |items|);
    InsertedAnchored(doc, a, at, items);
    InsertedUntouched(a, at, |items|);
    var c, c' := Contents(doc, a), Contents(doc', a');
    assert forall j :: 0 <= j < |c| ==> c'[j] == c[j];
  }

  /** The shifted references still lead to the same containers. */
  lemma {:induction false} InsertedAnchored(doc: Node, a: HostAnchors, at: nat, items: seq<Node>)
    requires Anchored(doc, a) && doc.Element? && at <= |doc.children|
    ensures var doc', a' := doc.(children := doc.children[..at] + items + doc.children[at..]), ShiftAnchors(a, at, |items|);
      Anchored(doc', a')
      && (forall j :: 0 <= j < |a.Leaves()| ==> At(doc', a'.Leaves()[j]) == At(doc, a.Leaves()[j]))
      && Mcmc(doc', a') == Mcmc(doc, a)
  {
    var doc', a' := doc.(children := doc.children[..at] + items + doc.children[at..]), ShiftAnchors(a, at, |items|);
    var n := |items|;
    ShiftedLeaves(a, at, n);
    forall j | 0 <= j < |a.Leaves()|
      ensures At(doc', a'.Leaves()[j]) == At(doc, a.Leaves()[j])
    {
      AtInserted(doc, at, items, a.Leaves()[j]);
    }
    AtInserted(doc, at, items, [a.mcmc]);
    AtInserted(doc, at, items, [a.mcmc, a.posterior]);
    assert [a'.mcmc] == ShiftPath([a.mcmc], at, n);
    assert [a'.mcmc, a.posterior] == ShiftPath([a.mcmc, a.posterior], at, n);
  }

  /** Every leaf moves with the shift of its first step. */
  lemma {:induction false} ShiftedLeaves(a: HostAnchors, at: nat, n: nat)
    ensures var a' := ShiftAnchors(a, at, n);
      |a'.Leaves()| == |a.Leaves()|
      && forall j :: 0 <= j < |a.Leaves()| ==> a'.Leaves()[j] == ShiftPath(a.Leaves()[j], at, n)
  {
  }

  /** A path untouched before the insertion is untouched, once shifted, after it. */
  lemma {:induction false} InsertedUntouched(a: HostAnchors, at: nat, n: nat)
    ensures forall q :: q != [] && Untouched(a, q) ==> Untouched(ShiftAnchors(a, at, n), ShiftPath(q, at, n))
  {
    var a' := ShiftAnchors(a, at, n);
    ShiftedLeaves(a, at, n);
    forall q | q != [] && Untouched(a, q)
      ensures Untouched(a', ShiftPath(q, at, n))
    {
      forall j | 0 <= j < |a'.Leaves()|
        ensures Disjoint(ShiftPath(q, at, n), a'.Leaves()[j])
      {
        ShiftKeepsDisjoint(q, a.Leaves()[j], at, n);
      }
    }
  }

  lemma {:induction false} ShiftKeepsDisjoint(q: seq<nat>, p: seq<nat>, at: nat, n: nat)
    requires q != [] && p != [] && Disjoint(q, p)
    ensures Disjoint(ShiftPath(q, at, n), ShiftPath(p, at, n))
  {
    if q[0] != p[0] {
      DisjointAt(ShiftPath(q, at, n), ShiftPath(p, at, n), 0);
    } else {
      assert q == [q[0]] + q[1..] && p == [p[0]] + p[1..];
      var s := Shifted(q[0], at, n);
      PrefixCons(q[0], q[1..], p[1..]);
      PrefixCons(s, q[1..], p[1..]);
      PrefixCons(q[0], p[1..], q[1..]);
      PrefixCons(s, p[1..], q[1..]);
    }
  }

  lemma {:induction false} PrefixCons(c: nat, x: seq<nat>, y: seq<nat>)
    ensures [c] + x <= [c] + y <==> x <= y
  {
    if x <= y {
      assert ([c] + y)[..|[c] + x|] == [c] + y[..|x|];
    }
    if [c] + x <= [c] + y {
      assert forall k :: 0 <= k < |x| ==> x[k] == ([c] + x)[k + 1];
    }
  }
}
