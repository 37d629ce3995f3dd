/**
 * The body of the setup script: find the host containers, take the symbiont
 * document apart, move its pieces into the host, insert the synthesized
 * cophylogeny model before the host `operators`, and flush the accumulated
 * entries into the host containers between marker comments.
 */
module Merge {
  import opened Wrappers
  import opened Xml
  import opened Edits
  import opened Anchors
  import opened Namespacer
  import opened Fragments
  import opened Associations

  /** `find(tag)`, failing the way the script does when the container is missing. */
  function Locate(cs: seq<Node>, tag: string): (r: Result<nat, SetupError>)
    ensures r.Success? ==> Find(cs, tag) == Some(r.value) && r.value < |cs| && Tagged(cs[r.value], tag)
    ensures r.Failure? ==> Find(cs, tag).None? && r.error == AnchorNotFound(tag)
  {
    match Find(cs, tag)
    case None => Failure(AnchorNotFound(tag))
    case Some(k) => Success(k)
  }

  /**
   * The host references: the first `operators` and `mcmc` under the root,
   * the first `posterior` in `mcmc` with its first `prior` and `likelihood`,
   * the second `log` of `mcmc`, and every `logTree` of `mcmc`.
   */
  function LocateHost(host: Node): (r: Result<HostAnchors, SetupError>)
    requires host.Element?
    ensures r.Success? ==>
      Find(host.children, "operators") == Some(r.value.operators) && Find(host.children, "mcmc") == Some(r.value.mcmc)
      && (var cs := host.children[r.value.mcmc].children;
          Find(cs, "posterior") == Some(r.value.posterior) && r.value.treeLogs == FindAll(cs, "logTree")
          && |FindAll(cs, "log")| >= 2 && r.value.log == FindAll(cs, "log")[1])
    ensures r.Success? ==> Anchored(host, r.value) && r.value.symbiontTreeLogs == []
    ensures r.Failure? ==>
      r.error.AnchorNotFound? && r.error.tag in ["mcmc", "posterior", "log", "operators", "prior", "likelihood"]
    ensures Find(host.children, "mcmc").None? || Find(host.children, "operators").None? ==> r.Failure?
  {
    var m :- Locate(host.children, "mcmc");
    var mcmc := host.children[m];
    var pos :- Locate(mcmc.children, "posterior");
    var logs := FindAll(mcmc.children, "log");
    if |logs| < 2 then Failure(AnchorNotFound("log"))
    else
      var ops :- Locate(host.children, "operators");
      var pr :- Locate(mcmc.children[pos].children, "prior");
      var lk :- Locate(mcmc.children[pos].children, "likelihood");
      assert logs[1] in logs;
      var a := HostAnchors(ops, m, pos, pr, lk, logs[1], FindAll(mcmc.children, "logTree"), []);
      HostAnchored(host, a);
      Success(a)
  }

  /** The positions `find` and `findall` give for the host's containers. */
  predicate HostLocated(host: Node, a: HostAnchors)
  {
    host.Element? && a.operators < |host.children| && a.mcmc < |host.children|
    && Tagged(host.children[a.operators], "operators") && Tagged(host.children[a.mcmc], "mcmc")
    && (var cs := host.children[a.mcmc].children;
        a.posterior < |cs| && Tagged(cs[a.posterior], "posterior") && a.log < |cs| && Tagged(cs[a.log], "log")
        && a.prior < |cs[a.posterior].children| && Tagged(cs[a.posterior].children[a.prior], "prior")
        && a.likelihood < |cs[a.posterior].children| && Tagged(cs[a.posterior].children[a.likelihood], "likelihood"))
    && a.treeLogs == FindAll(host.children[a.mcmc].children, "logTree") && a.symbiontTreeLogs == []
  }

  /** Containers found by tag are anchored by the references to them. */
  lemma {:induction false} HostAnchored(host: Node, a: HostAnchors)
    requires HostLocated(host, a)
    ensures Anchored(host, a)
  {
    TaggedChild(host, a.mcmc, "mcmc");
    TaggedGrandchild(host, a.mcmc, a.posterior, "posterior");
    HostLeavesTagged(host, a);
    HostAnchorsDistinct(host, a);
  }

  lemma {:induction false} HostLeavesTagged(host: Node, a: HostAnchors)
    requires HostLocated(host, a)
    ensures forall i :: 0 <= i < |a.Leaves()| ==> TaggedAt(host, a.Leaves()[i], LeafTag(i))
  {
    var leaves := a.Leaves();
    assert a.Logs() == a.treeLogs;
    assert leaves[0] == [a.operators] && leaves[1] == [a.mcmc, a.posterior, a.prior];
    assert leaves[2] == [a.mcmc, a.posterior, a.likelihood] && leaves[3] == [a.mcmc, a.log];
    TaggedChild(host, a.operators, "operators");
    TaggedGreatGrandchild(host, a.mcmc, a.posterior, a.prior, "prior");
    TaggedGreatGrandchild(host, a.mcmc, a.posterior, a.likelihood, "likelihood");
    TaggedGrandchild(host, a.mcmc, a.log, "log");
    forall i | 4 <= i < |leaves|
      ensures TaggedAt(host, leaves[i], LeafTag(i))
    {
      var t := a.treeLogs[i - 4];
      assert leaves[i] == [a.mcmc, t];
      assert t in a.treeLogs;
      TaggedGrandchild(host, a.mcmc, t, "logTree");
    }
  }

  /** Containers with different tags sit at different positions, and `findall` lists positions in order. */
  lemma {:induction false} HostAnchorsDistinct(host: Node, a: HostAnchors)
    requires HostLocated(host, a)
    ensures a.operators != a.mcmc && a.prior != a.likelihood && a.log != a.posterior
    ensures forall t :: t in a.Logs() ==> t != a.log && t != a.posterior
    ensures Increasing(a.Logs())
  {
    assert a.Logs() == a.treeLogs;
    assert "operators" != "mcmc" && "prior" != "likelihood" && "log" != "posterior";
    assert "logTree" != "log" && "logTree" != "posterior";
  }

  /** Positions of the symbiont containers the script reads or removes. */
  datatype SymbiontAnchors = SymbiontAnchors(
    operators: nat, mcmc: nat, report: nat,
    posterior: nat, screenLog: nat, log: nat, mcmcOperators: nat,
    prior: nat, likelihood: nat)

  /** Every position leads to a container with the right tag. */
  predicate SymbiontFound(sym: Node, s: SymbiontAnchors)
  {
    sym.Element? && s.operators < |sym.children| && s.mcmc < |sym.children| && s.report < |sym.children|
    && Tagged(sym.children[s.operators], "operators") && Tagged(sym.children[s.mcmc], "mcmc")
    && Tagged(sym.children[s.report], "report")
    && (var cs := sym.children[s.mcmc].children;
        s.posterior < |cs| && s.screenLog < |cs| && s.log < |cs| && s.mcmcOperators < |cs|
        && Tagged(cs[s.posterior], "posterior") && Tagged(cs[s.screenLog], "log") && Tagged(cs[s.log], "log")
        && Tagged(cs[s.mcmcOperators], "operators") && s.screenLog != s.log
        && s.prior < |cs[s.posterior].children| && Tagged(cs[s.posterior].children[s.prior], "prior")
        && s.likelihood < |cs[s.posterior].children| && Tagged(cs[s.posterior].children[s.likelihood], "likelihood"))
  }

  /**
   * The symbiont lookups, failing on the first missing container in the
   * order the script touches them: `mcmc`, its `posterior`, its first two
   * `log`s, the `report`, the root `operators`, the `prior` and
   * `likelihood` of the `posterior`, and the `operators` of `mcmc`.
   */
  function LocateSymbiont(sym: Node): (r: Result<SymbiontAnchors, SetupError>)
    requires sym.Element?
    ensures r.Success? ==> SymbiontFound(sym, r.value)
    ensures r.Success? ==>
      Find(sym.children, "mcmc") == Some(r.value.mcmc) && Find(sym.children, "operators") == Some(r.value.operators)
      && Find(sym.children, "report") == Some(r.value.report)
    ensures r.Success? ==> (var cs := sym.children[r.value.mcmc].children;
      |FindAll(cs, "log")| >= 2 && r.value.screenLog == FindAll(cs, "log")[0] && r.value.log == FindAll(cs, "log")[1])
    ensures r.Failure? ==>
      r.error.AnchorNotFound? && r.error.tag in ["mcmc", "posterior", "log", "report", "operators", "prior", "likelihood"]
    ensures Find(sym.children, "mcmc").None? ==> r == Failure(AnchorNotFound("mcmc"))
    ensures Find(sym.children, "report").None? ==> r.Failure?
  {
    var m :- Locate(sym.children, "mcmc");
    var mcmc := sym.children[m];
    var pos :- Locate(mcmc.children, "posterior");
    var logs := FindAll(mcmc.children, "log");
    if |logs| < 2 then Failure(AnchorNotFound("log"))
    else
      var rep :- Locate(sym.children, "report");
      var ops :- Locate(sym.children, "operators");
      var pr :- Locate(mcmc.children[pos].children, "prior");
      var lk :- Locate(mcmc.children[pos].children, "likelihood");
      var mops :- Locate(mcmc.children, "operators");
      assert logs[0] in logs && logs[1] in logs;
      Success(SymbiontAnchors(ops, m, rep, pos, logs[0], logs[1], mops, pr, lk))
  }

  /** The pieces of the symbiont document that move into the host. */
  datatype Parts = Parts(
    operators: seq<Node>,
    priors: seq<Node>,
    likelihoods: seq<Node>,
    logEntries: seq<Node>,
    mcmcRest: seq<Node>,
    rootRest: seq<Node>)

  /**
   * What moves: the element children of the symbiont `operators`, of the
   * `prior` and `likelihood` of its `posterior`, and of its second `log`;
   * then the elements left in its `mcmc` once the two logs, the `posterior`
   * and the `mcmc` operators are removed, and the elements left under its
   * root once the `report`, `operators` and `mcmc` are removed.
   */
  function PartsOf(sym: Node, s: SymbiontAnchors): (r: Parts)
    requires SymbiontFound(sym, s)
    ensures forall n :: n in r.mcmcRest ==> n.Element? && n in sym.children[s.mcmc].children
    ensures forall n :: n in r.rootRest ==> n.Element? && n in sym.children
  {
    var mcmc := sym.children[s.mcmc];
    var posterior := mcmc.children[s.posterior];
    var mcmcRest := Without(mcmc.children, {s.screenLog, s.posterior, s.log, s.mcmcOperators});
    var rootRest := Without(sym.children, {s.report, s.operators, s.mcmc});
    ElementsMembers(mcmcRest);
    ElementsMembers(rootRest);
    Parts(
      Elements(sym.children[s.operators].children),
      Elements(posterior.children[s.prior].children),
      Elements(posterior.children[s.likelihood].children),
      Elements(mcmc.children[s.log].children),
      Elements(mcmcRest),
      Elements(rootRest))
  }

  /** Exactly three elements leave the symbiont root, and exactly four leave its `mcmc`. */
  lemma {:induction false} PartsSizes(sym: Node, s: SymbiontAnchors)
    requires SymbiontFound(sym, s)
    ensures |PartsOf(sym, s).rootRest| + 3 == |Elements(sym.children)|
    ensures |PartsOf(sym, s).mcmcRest| + 4 == |Elements(sym.children[s.mcmc].children)|
  {
    var cs := sym.children[s.mcmc].children;
    DropThree(sym.children, s.report, s.operators, s.mcmc);
    DropFour(cs, s.screenLog, s.posterior, s.log, s.mcmcOperators);
  }

  lemma {:induction false} DropThree(cs: seq<Node>, a: nat, b: nat, c: nat)
    requires a < |cs| && b < |cs| && c < |cs| && a != b && a != c && b != c
    requires cs[a].Element? && cs[b].Element? && cs[c].Element?
    ensures |Elements(Without(cs, {a, b, c}))| + 3 == |Elements(cs)|
  {
    var d := {a, b, c};
    assert |d| == 3 by {
      assert d == {a, b} + {c};
    }
    ElementsWithout(cs, d);
  }

  lemma {:induction false} DropFour(cs: seq<Node>, a: nat, b: nat, c: nat, e: nat)
    requires a < |cs| && b < |cs| && c < |cs| && e < |cs|
    requires a != b && a != c && a != e && b != c && b != e && c != e
    requires cs[a].Element? && cs[b].Element? && cs[c].Element? && cs[e].Element?
    ensures |Elements(Without(cs, {a, b, c, e}))| + 4 == |Elements(cs)|
  {
    var d := {a, b, c, e};
    assert |d| == 4 by {
      assert {a, b, c} == {a, b} + {c};
      assert d == {a, b, c} + {e};
    }
    ElementsWithout(cs, d);
  }

  /** The symbiont side of the merge: its containers located, the pieces that move. */
  function Dismantle(sym: Node): (r: Result<Parts, SetupError>)
    requires sym.Element?
    ensures r.Success? <==> LocateSymbiont(sym).Success?
    ensures r.Failure? ==> r.error == LocateSymbiont(sym).error
  {
    var s :- LocateSymbiont(sym);
    Success(PartsOf(sym, s))
  }

  /** `for x in xs: container.append(x)`, the container being the node at `path`. */
  method AppendEach(doc: Node, path: seq<nat>, xs: seq<Node>) returns (r: Node)
    requires At(doc, path).Some? && At(doc, path).value.Element?
    ensures r == AppendAt(doc, path, xs)
  {
    var container := At(doc, path).value;
    r := doc;
    assert container.children + [] == container.children;
    ReplaceSame(doc, path);
    var k := 0;
    while k < |xs|
      invariant 0 <= k <= |xs|
      invariant r == AppendAt(doc, path, xs[..k])
    {
      assert AppendChildren(AppendChildren(container, xs[..k]), [xs[k]]) == AppendChildren(container, xs[..k + 1]) by {
        assert xs[..k] + [xs[k]] == xs[..k + 1];
      }
      ReplaceTwice(doc, path, AppendChildren(container, xs[..k]), AppendChildren(container, xs[..k + 1]));
      r := AppendAt(r, path, [xs[k]]);
      k := k + 1;
    }
    assert xs[..k] == xs;
  }

  /** `container.append(x)` for each `x` on one of the containers the references reach. */
  method AppendToLeaf(doc: Node, a: HostAnchors, i: nat, xs: seq<Node>) returns (r: Node)
    requires Anchored(doc, a) && i < |a.Leaves()|
    ensures Anchored(r, a)
    ensures Contents(r, a) == Contents(doc, a)[i := AppendChildren(Contents(doc, a)[i], xs)]
    ensures Mcmc(r, a).attrs == Mcmc(doc, a).attrs
    ensures |Mcmc(r, a).children| == |Mcmc(doc, a).children|
    ensures forall q {:trigger Untouched(a, q)} :: Untouched(a, q) ==> At(r, q) == At(doc, q)
    ensures RootKept(doc, r)
  {
    AppendLeaf(doc, a, i, xs);
    r := AppendEach(doc, a.Leaves()[i], xs);
  }

  /** `container.set(key, value)` on one of the containers the references reach. */
  method SetLeafAttribute(doc: Node, a: HostAnchors, i: nat, key: string, value: string) returns (r: Node)
    requires Anchored(doc, a) && i < |a.Leaves()|
    ensures Anchored(r, a)
    ensures Contents(r, a) == Contents(doc, a)[i := SetAttr(Contents(doc, a)[i], key, value)]
    ensures Mcmc(r, a).attrs == Mcmc(doc, a).attrs
    ensures |Mcmc(r, a).children| == |Mcmc(doc, a).children|
    ensures forall q {:trigger Untouched(a, q)} :: Untouched(a, q) ==> At(r, q) == At(doc, q)
    ensures RootKept(doc, r)
  {
    SetLeafAttr(doc, a, i, key, value);
    r := SetAttrAt(doc, a.Leaves()[i], key, value);
  }

  /** The root keeps its tag, its attributes and its number of children. */
  predicate RootKept(doc: Node, r: Node)
  {
    doc.Element? && r.Element? && r.tag == doc.tag && r.attrs == doc.attrs && |r.children| == |doc.children|
  }

  /** The host containers once the symbiont pieces have moved in. */
  function Received(c: seq<Node>, p: Parts): (r: seq<Node>)
    requires |c| >= 4 && forall i :: 0 <= i < |c| ==> c[i].Element?
    ensures |r| == |c| + |FindAll(p.mcmcRest, "logTree")| && forall i :: 0 <= i < |r| ==> r[i].Element?
  {
    [AppendChildren(c[OperatorsLeaf], p.operators), AppendChildren(c[PriorLeaf], p.priors),
     AppendChildren(c[LikelihoodsLeaf], p.likelihoods), AppendChildren(c[LogLeaf], p.logEntries)]
    + c[4..] + TreeLogsIn(p.mcmcRest)
  }

  /**
   * The first half of the transplant: `mcmc` marked for the operator
   * analysis and the four host containers extended with the symbiont's.
   */
  method Receive(doc: Node, a: HostAnchors, p: Parts) returns (r: Node)
    requires Anchored(doc, a)
    ensures Anchored(r, a)
    ensures Contents(r, a) == Received(Contents(doc, a), p)[..|Contents(doc, a)|]
    ensures Mcmc(r, a).attrs == Mcmc(doc, a).attrs["operatorAnalysis" := "coevolution.ops"]
    ensures |Mcmc(r, a).children| == |Mcmc(doc, a).children|
    ensures forall q {:trigger Untouched(a, q)} :: Untouched(a, q) && At(doc, q).Some? ==> At(r, q) == At(doc, q)
    ensures RootKept(doc, r)
  {
    ghost var c := Contents(doc, a);
    r := SetAttrAt(doc, [a.mcmc], "operatorAnalysis", "coevolution.ops");
    SetMcmcAttr(doc, a, "operatorAnalysis", "coevolution.ops");
    r := AppendPair(r, a, OperatorsLeaf, p.operators, PriorLeaf, p.priors);
    ghost var c2 := Contents(r, a);
    r := AppendPair(r, a, LikelihoodsLeaf, p.likelihoods, LogLeaf, p.logEntries);
    ReceivedFirstFour(c, c2, Contents(r, a), p);
  }

  /** The four appends give the received containers, the tree logs aside. */
  lemma {:induction false} ReceivedFirstFour(c: seq<Node>, c2: seq<Node>, c3: seq<Node>, p: Parts)
    requires |c| >= 4 && forall j :: 0 <= j < |c| ==> c[j].Element?
    requires c2 == c[OperatorsLeaf := AppendChildren(c[OperatorsLeaf], p.operators)][PriorLeaf := AppendChildren(c[PriorLeaf], p.priors)]
    requires c3 == c2[LikelihoodsLeaf := AppendChildren(c2[LikelihoodsLeaf], p.likelihoods)][LogLeaf := AppendChildren(c2[LogLeaf], p.logEntries)]
    ensures c3 == Received(c, p)[..|c|]
  {
    var f := Received(c, p)[..|c|];
    assert |f| == |c3|;
    forall j | 0 <= j < |c|
      ensures c3[j] == f[j]
    {
    }
  }

  /** Two appends in a row, to two distinct containers. */
  method AppendPair(doc: Node, a: HostAnchors, i: nat, xs: seq<Node>, j: nat, ys: seq<Node>) returns (r: Node)
    requires Anchored(doc, a) && i < |a.Leaves()| && j < |a.Leaves()| && i != j
    ensures Anchored(r, a)
    ensures Contents(r, a) == Contents(doc, a)[i := AppendChildren(Contents(doc, a)[i], xs)][j := AppendChildren(Contents(doc, a)[j], ys)]
    ensures Mcmc(r, a).attrs == Mcmc(doc, a).attrs
    ensures |Mcmc(r, a).children| == |Mcmc(doc, a).children|
    ensures forall q {:trigger Untouched(a, q)} :: Untouched(a, q) ==> At(r, q) == At(doc, q)
    ensures RootKept(doc, r)
  {
    var m := AppendToLeaf(doc, a, i, xs);
    r := AppendToLeaf(m, a, j, ys);
  }

  /**
   * The transplant: `mcmc` is marked for the operator analysis, then the
   * symbiont operators, priors, likelihoods and log entries are appended, in
   * order, to the host `operators`, `prior`, `likelihood` and second `log`,
   * and what is left of the symbiont `mcmc` to the host `mcmc`, whose tree
   * logs then include the symbiont's.
   */
  method Transplant(doc: Node, a: HostAnchors, p: Parts) returns (r: Node)
    requires Anchored(doc, a) && a.symbiontTreeLogs == []
    ensures Anchored(r, Adopted(doc, a, p.mcmcRest))
    ensures Contents(r, Adopted(doc, a, p.mcmcRest)) == Received(Contents(doc, a), p)
    ensures Mcmc(r, Adopted(doc, a, p.mcmcRest)).attrs == Mcmc(doc, a).attrs["operatorAnalysis" := "coevolution.ops"]
    ensures |Mcmc(r, Adopted(doc, a, p.mcmcRest)).children| == |Mcmc(doc, a).children| + |p.mcmcRest|
    ensures Mcmc(r, Adopted(doc, a, p.mcmcRest)).children[|Mcmc(doc, a).children|..] == p.mcmcRest
    ensures forall q {:trigger Untouched(Adopted(doc, a, p.mcmcRest), q)} :: Untouched(Adopted(doc, a, p.mcmcRest), q) && At(doc, q).Some? ==> At(r, q) == At(doc, q)
    ensures RootKept(doc, r)
  {
    ghost var c := Contents(doc, a);
    r := Receive(doc, a, p);
    ghost var d5 := r;
    assert Adopted(d5, a, p.mcmcRest) == Adopted(doc, a, p.mcmcRest);
    r := AppendEach(r, [a.mcmc], p.mcmcRest);
    AdoptedContents(d5, a, p.mcmcRest);
    AdoptSymbiontLogs(d5, a, p.mcmcRest);
    ExtendedLeaves(a, Adopted(doc, a, p.mcmcRest).symbiontTreeLogs);
  }

  /** Inserting right after a prefix puts the nodes between the prefix and the rest. */
  lemma {:induction false} InsertAfter(p: seq<Node>, s: seq<Node>, xs: seq<Node>)
    ensures (p + s)[..|p|] + xs + (p + s)[|p|..] == p + xs + s
  {
    assert (p + s)[..|p|] == p && (p + s)[|p|..] == s;
  }

  /** `for x in xs: root.insert(i, x); i += 1`, with `i` starting at `at`. */
  method InsertEach(n: Node, at: nat, xs: seq<Node>) returns (r: Node)
    requires n.Element? && at <= |n.children|
    ensures r == n.(children := n.children[..at] + xs + n.children[at..])
  {
    r := n;
    var i := at;
    for k := 0 to |xs|
      invariant i == at + k
      invariant r == n.(children := n.children[..at] + xs[..k] + n.children[at..])
    {
      InsertAfter(n.children[..at] + xs[..k], n.children[at..], [xs[k]]);
      assert xs[..k + 1] == xs[..k] + [xs[k]];
      r := InsertChild(r, i, xs[k]);
      i := i + 1;
    }
    assert xs[..|xs|] == xs;
  }

  /**
   * The number of elements before the first one tagged `tag`, or of all
   * elements when none is: where the script's counting loop stops.
   */
  function ElementsBefore(cs: seq<Node>, tag: string): (r: nat)
    ensures r <= |cs|
  {
    match Find(cs, tag)
    case Some(k) => ElementsLength(cs[..k]); |Elements(cs[..k])|
    case None => ElementsLength(cs); |Elements(cs)|
  }

  /** The loop that counts the root's elements up to the first `operators`. */
  method InsertIndex(cs: seq<Node>) returns (i: nat)
    ensures i == ElementsBefore(cs, "operators")
  {
    i := 0;
    var k := 0;
    while k < |cs| && !Tagged(cs[k], "operators")
      invariant 0 <= k <= |cs| && i == |Elements(cs[..k])|
      invariant forall j :: 0 <= j < k ==> !Tagged(cs[j], "operators")
    {
      ElementsStep(cs, k);
      if cs[k].Element? {
        i := i + 1;
      }
      k := k + 1;
    }
    CountedUpTo(cs, k);
  }

  /** Stopping at the first `operators`, or at the end, counts what `ElementsBefore` says. */
  lemma {:induction false} CountedUpTo(cs: seq<Node>, k: nat)
    requires k <= |cs| && (k < |cs| ==> Tagged(cs[k], "operators"))
    requires forall j :: 0 <= j < k ==> !Tagged(cs[j], "operators")
    ensures ElementsBefore(cs, "operators") == |Elements(cs[..k])|
  {
    if k == |cs| {
      assert cs[..k] == cs;
    }
  }

  /**
   * The count stops at or before the first `operators`, and exactly at it
   * when no comment precedes it: on a parsed root the model block lands
   * right before the host `operators`.
   */
  lemma {:induction false} InsertIndexExact(cs: seq<Node>)
    requires Find(cs, "operators").Some?
    ensures ElementsBefore(cs, "operators") <= Find(cs, "operators").value
    ensures ElementsBefore(cs, "operators") == Find(cs, "operators").value
      <==> CommentFree(cs[..Find(cs, "operators").value])
    ensures CommentFree(cs) ==> ElementsBefore(cs, "operators") == Find(cs, "operators").value
  {
    var k := Find(cs, "operators").value;
    ElementsLength(cs[..k]);
    if CommentFree(cs) {
      forall j | 0 <= j < k
        ensures cs[..k][j].Element?
      {
        assert cs[..k][j] == cs[j];
      }
    }
  }

  /**
   * What the script inserts before the host `operators`: the elements left
   * under the symbiont root, then the five synthesized fragments between
   * the marker comments.
   */
  function ModelBlock(rootRest: seq<Node>, hostLabel: string, symbiontLabel: string): (r: seq<Node>)
    ensures |r| == |rootRest| + 7
    ensures r[..|rootRest|] == rootRest && r[|rootRest|] == Begin() && r[|r| - 1] == End()
  {
    rootRest + [Begin()] + Synthesized(hostLabel, symbiontLabel) + [End()]
  }

  /**
   * The insertion: the index is counted, the rest of the symbiont root is
   * inserted there one element at a time, then the markers and the five
   * fragments, each built, and its entries queued, in the script's order.
   */
  method InsertModel(doc: Node, rootRest: seq<Node>, hostLabel: string, symbiontLabel: string)
    returns (r: Node, q: Accumulators)
    requires doc.Element?
    ensures var at := ElementsBefore(doc.children, "operators");
      r == doc.(children := doc.children[..at] + ModelBlock(rootRest, hostLabel, symbiontLabel) + doc.children[at..])
    ensures q == Queued(hostLabel, symbiontLabel)
  {
    var i := InsertIndex(doc.children);
    ghost var at := i;
    r := InsertEach(doc, i, rootRest);
    i := i + |rootRest|;
    q := NoEntries;
    var model := SimpleCophylogenyModel();
    q := q.Then(model.delta);
    var clock := StrictClockBranchRates();
    q := q.Then(clock.delta);
    var likelihood := CophylogenyLikelihood(hostLabel, symbiontLabel);
    q := q.Then(likelihood.delta);
    var simulator := CoevolutionSimulator(hostLabel, symbiontLabel);
    var nodeRef := NodeRefProvider(hostLabel);
    q := q.Then(nodeRef.delta);
    var fragments := [Begin(), model.fragment, clock.fragment, likelihood.fragment, simulator, nodeRef.fragment, End()];
    InsertAfter(doc.children[..at] + rootRest, doc.children[at..], fragments);
    r := InsertEach(r, i, fragments);
  }

  /** The two marker comments around `xs`. */
  function Bracket(xs: seq<Node>): (r: seq<Node>)
    ensures |r| == |xs| + 2 && r[0] == Begin() && r[|r| - 1] == End() && r[1..|r| - 1] == xs
  {
    [Begin()] + xs + [End()]
  }

  /**
   * What each container receives at the end: the queued operators, priors
   * and log entries, the reference to the cophylogeny likelihood, and in
   * every tree log the traits of its own side.
   */
  function Entries(i: nat, hostLogs: nat, q: Accumulators): seq<Node>
  {
    if i == OperatorsLeaf then q.operators
    else if i == PriorLeaf then q.priors
    else if i == LikelihoodsLeaf then [LikelihoodReference()]
    else if i == LogLeaf then q.fileLog
    else if i < 4 + hostLogs then q.hostTreeTraits
    else q.symbiontTreeTraits
  }

  /** The containers once the queued entries are flushed, the log renamed to `coevolution.log`. */
  function Flushed(c: seq<Node>, hostLogs: nat, q: Accumulators): (r: seq<Node>)
    requires forall i :: 0 <= i < |c| ==> c[i].Element?
    ensures |r| == |c|
  {
    seq(|c|, i requires 0 <= i < |c| =>
      AppendChildren(if i == LogLeaf then SetAttr(c[i], "fileName", "coevolution.log") else c[i],
                     Bracket(Entries(i, hostLogs, q))))
  }

  /** Each flushed container is the old one followed by its entries between the markers. */
  lemma {:induction false} FlushedChildren(c: seq<Node>, hostLogs: nat, q: Accumulators, i: nat)
    requires forall j :: 0 <= j < |c| ==> c[j].Element?
    requires i < |c|
    ensures Flushed(c, hostLogs, q)[i].children == c[i].children + Bracket(Entries(i, hostLogs, q))
  {
  }

  /**
   * Flushing keeps every container's tag and old children, adds the entries
   * after them between the markers, and renames only the log.
   */
  lemma {:induction false} FlushedShape(c: seq<Node>, hostLogs: nat, q: Accumulators)
    requires forall i :: 0 <= i < |c| ==> c[i].Element?
    ensures var r := Flushed(c, hostLogs, q);
      forall i :: 0 <= i < |c| ==>
        r[i].Element? && r[i].tag == c[i].tag && c[i].children <= r[i].children
        && r[i].children[|c[i].children|] == Begin() && r[i].children[|r[i].children| - 1] == End()
        && (i != LogLeaf ==> r[i].attrs == c[i].attrs)
    ensures var r := Flushed(c, hostLogs, q);
      LogLeaf < |c| ==> r[LogLeaf].attrs == c[LogLeaf].attrs["fileName" := "coevolution.log"]
  {
    forall i | 0 <= i < |c|
      ensures Flushed(c, hostLogs, q)[i].children == c[i].children + Bracket(Entries(i, hostLogs, q))
    {
      FlushedChildren(c, hostLogs, q, i);
    }
  }

  /**
   * Every tree log, not just the last, holds each trait of its side: the
   * host's traits in the first `hostLogs` tree logs, the symbiont's in the rest.
   */
  lemma {:induction false} FlushedTraits(c: seq<Node>, hostLogs: nat, q: Accumulators)
    requires forall i :: 0 <= i < |c| ==> c[i].Element?
    ensures var r := Flushed(c, hostLogs, q);
      forall i, t :: 4 <= i < |c| && 0 <= t < |q.hostTreeTraits| && i < 4 + hostLogs ==>
        q.hostTreeTraits[t] in r[i].children
    ensures var r := Flushed(c, hostLogs, q);
      forall i, t :: 4 + hostLogs <= i < |c| && 4 <= i && 0 <= t < |q.symbiontTreeTraits| ==>
        q.symbiontTreeTraits[t] in r[i].children
  {
    var r := Flushed(c, hostLogs, q);
    forall i, t | 4 <= i < |c| && 0 <= t < |Entries(i, hostLogs, q)|
      ensures Entries(i, hostLogs, q)[t] in r[i].children
    {
      FlushedChildren(c, hostLogs, q, i);
      assert r[i].children[|c[i].children| + 1 + t] == Entries(i, hostLogs, q)[t];
    }
  }

  /**
   * The flush, in the script's order: operators, priors, the log (renamed,
   * then its entries), the likelihood reference, each host tree log, then
   * each symbiont tree log.
   */
  method Flush(doc: Node, a: HostAnchors, q: Accumulators) returns (r: Node)
    requires Anchored(doc, a)
    ensures Anchored(r, a)
    ensures Contents(r, a) == Flushed(Contents(doc, a), |a.treeLogs|, q)
    ensures Mcmc(r, a).attrs == Mcmc(doc, a).attrs && |Mcmc(r, a).children| == |Mcmc(doc, a).children|
    ensures forall p {:trigger Untouched(a, p)} :: Untouched(a, p) ==> At(r, p) == At(doc, p)
    ensures RootKept(doc, r)
  {
    ghost var c := Contents(doc, a);
    ghost var target := Flushed(c, |a.treeLogs|, q);
    r := FlushContainers(doc, a, q);
    FlushedTreeLogs(c, |a.treeLogs|, q);
    r := FlushTreeLogs(r, a, 4, |a.treeLogs|, q.hostTreeTraits, target, c);
    r := FlushTreeLogs(r, a, 4 + |a.treeLogs|, |a.symbiontTreeLogs|, q.symbiontTreeTraits, target, c);
    assert forall j :: 0 <= j < |c| ==> Contents(r, a)[j] == target[j];
  }

  /** The tree logs of each side receive that side's traits between the markers. */
  lemma {:induction false} FlushedTreeLogs(c: seq<Node>, hostLogs: nat, q: Accumulators)
    requires forall i :: 0 <= i < |c| ==> c[i].Element?
    ensures forall j :: 4 <= j < 4 + hostLogs && j < |c| ==>
      Flushed(c, hostLogs, q)[j] == AppendChildren(c[j], Bracket(q.hostTreeTraits))
    ensures forall j :: 4 + hostLogs <= j < |c| ==>
      Flushed(c, hostLogs, q)[j] == AppendChildren(c[j], Bracket(q.symbiontTreeTraits))
  {
  }

  /**
   * `for log in logs: log.append(BEGIN); log.extend(traits); log.append(END)`,
   * over the `count` tree logs from leaf `from` on.
   */
  method FlushTreeLogs(doc: Node, a: HostAnchors, from: nat, count: nat, traits: seq<Node>,
                       ghost target: seq<Node>, ghost c: seq<Node>) returns (r: Node)
    requires Anchored(doc, a) && from + count <= |a.Leaves()| && |c| == |target| == |a.Leaves()|
    requires forall j :: 0 <= j < |c| ==> c[j].Element?
    requires forall j :: 0 <= j < |c| ==> Contents(doc, a)[j] == if j < from then target[j] else c[j]
    requires forall j :: from <= j < from + count ==> target[j] == AppendChildren(c[j], Bracket(traits))
    ensures Anchored(r, a) && RootKept(doc, r)
    ensures forall j :: 0 <= j < |c| ==> Contents(r, a)[j] == if j < from + count then target[j] else c[j]
    ensures Mcmc(r, a).attrs == Mcmc(doc, a).attrs && |Mcmc(r, a).children| == |Mcmc(doc, a).children|
    ensures forall p {:trigger Untouched(a, p)} :: Untouched(a, p) ==> At(r, p) == At(doc, p)
  {
    r := doc;
    for k := 0 to count
      invariant Anchored(r, a) && RootKept(doc, r)
      invariant forall j :: 0 <= j < |c| ==> Contents(r, a)[j] == if j < from + k then target[j] else c[j]
      invariant Mcmc(r, a).attrs == Mcmc(doc, a).attrs && |Mcmc(r, a).children| == |Mcmc(doc, a).children|
      invariant forall p {:trigger Untouched(a, p)} :: Untouched(a, p) ==> At(r, p) == At(doc, p)
    {
      ghost var before := Contents(r, a);
      r := AppendToLeaf(r, a, from + k, Bracket(traits));
      FlushStep(before, Contents(r, a), target, c, from + k, Bracket(traits));
    }
  }

  /** The operators, priors, log and likelihood part of the flush. */
  method FlushContainers(doc: Node, a: HostAnchors, q: Accumulators) returns (r: Node)
    requires Anchored(doc, a)
    ensures Anchored(r, a)
    ensures forall j :: 0 <= j < |Contents(doc, a)| ==>
      Contents(r, a)[j] == if j < 4 then Flushed(Contents(doc, a), |a.treeLogs|, q)[j] else Contents(doc, a)[j]
    ensures Mcmc(r, a).attrs == Mcmc(doc, a).attrs && |Mcmc(r, a).children| == |Mcmc(doc, a).children|
    ensures forall p {:trigger Untouched(a, p)} :: Untouched(a, p) ==> At(r, p) == At(doc, p)
    ensures RootKept(doc, r)
  {
    ghost var c := Contents(doc, a);
    r := AppendPair(doc, a, OperatorsLeaf, Bracket(q.operators), PriorLeaf, Bracket(q.priors));
    ghost var c2 := Contents(r, a);
    r := SetLeafAttribute(r, a, LogLeaf, "fileName", "coevolution.log");
    ghost var c3 := Contents(r, a);
    r := AppendPair(r, a, LogLeaf, Bracket(q.fileLog), LikelihoodsLeaf, Bracket([LikelihoodReference()]));
    FlushedFirstFour(c, c2, c3, Contents(r, a), |a.treeLogs|, q);
  }

  /** The four steps on the operators, prior, log and likelihood containers give their flushed form. */
  lemma {:induction false} FlushedFirstFour(c: seq<Node>, c2: seq<Node>, c3: seq<Node>, c4: seq<Node>, hostLogs: nat, q: Accumulators)
    requires |c| >= 4 && forall j :: 0 <= j < |c| ==> c[j].Element?
    requires c2 == c[OperatorsLeaf := AppendChildren(c[OperatorsLeaf], Bracket(q.operators))][PriorLeaf := AppendChildren(c[PriorLeaf], Bracket(q.priors))]
    requires c3 == c2[LogLeaf := SetAttr(c2[LogLeaf], "fileName", "coevolution.log")]
    requires c4 == c3[LogLeaf := AppendChildren(c3[LogLeaf], Bracket(q.fileLog))][LikelihoodsLeaf := AppendChildren(c3[LikelihoodsLeaf], Bracket([LikelihoodReference()]))]
    ensures forall j :: 0 <= j < |c| ==> c4[j] == if j < 4 then Flushed(c, hostLogs, q)[j] else c[j]
  {
    var f := Flushed(c, hostLogs, q);
    assert c4[OperatorsLeaf] == f[OperatorsLeaf] by {
      assert Entries(OperatorsLeaf, hostLogs, q) == q.operators;
    }
    assert c4[PriorLeaf] == f[PriorLeaf] by {
      assert Entries(PriorLeaf, hostLogs, q) == q.priors;
    }
    assert c4[LikelihoodsLeaf] == f[LikelihoodsLeaf] by {
      assert Entries(LikelihoodsLeaf, hostLogs, q) == [LikelihoodReference()];
    }
    assert c4[LogLeaf] == f[LogLeaf] by {
      assert Entries(LogLeaf, hostLogs, q) == q.fileLog;
    }
    forall j | 4 <= j < |c|
      ensures c4[j] == c[j]
    {
    }
  }

  /** One more container flushed: the flushed prefix grows by one. */
  lemma {:induction false} FlushStep(before: seq<Node>, after: seq<Node>, target: seq<Node>, c: seq<Node>, i: nat, xs: seq<Node>)
    requires |before| == |c| == |target| && i < |c| && c[i].Element?
    requires forall j :: 0 <= j < |c| ==> before[j] == if j < i then target[j] else c[j]
    requires after == before[i := AppendChildren(before[i], xs)]
    requires target[i] == AppendChildren(c[i], xs)
    ensures forall j :: 0 <= j < |c| ==> after[j] == if j < i + 1 then target[j] else c[j]
  {
  }

  /**
   * After the transplant the root still has no comment and its first
   * `operators` is where it was: only `operators` and `mcmc` changed, in place.
   */
  lemma {:induction false} TransplantKeepsRoot(h: Node, d: Node, a0: HostAnchors, a1: HostAnchors)
    requires Anchored(h, a0) && Anchored(d, a1) && RootKept(h, d)
    requires a1.operators == a0.operators && a1.mcmc == a0.mcmc
    requires forall q {:trigger Untouched(a1, q)} :: Untouched(a1, q) && At(h, q).Some? ==> At(d, q) == At(h, q)
    requires CommentFree(h.children) && Find(h.children, "operators") == Some(a0.operators)
    ensures CommentFree(d.children) && Find(d.children, "operators") == Some(a0.operators)
  {
    RootChildren(d, a1);
    RootChildren(h, a0);
    forall j | 0 <= j < |h.children| && j != a0.operators && j != a0.mcmc
      ensures d.children[j] == h.children[j]
    {
      OtherChildUntouched(a1, j);
      AtChild(h, j, []);
      AtChild(d, j, []);
      assert [j] + [] == [j];
    }
    FindFirst(d.children, "operators", a0.operators);
  }

  /** `block` sits in `cs` from position `at` on. */
  predicate Placed(cs: seq<Node>, at: nat, block: seq<Node>)
  {
    at + |block| <= |cs| && cs[at..at + |block|] == block
  }

  /**
   * The host once the model block is inserted before `operators` and the
   * queued entries are flushed: the containers flushed, `mcmc` otherwise
   * as it was, the block in place, and every other node where it was, up
   * to the shift of the root children after the block.
   */
  ghost predicate Completed(d: Node, a1: HostAnchors, block: seq<Node>, q: Accumulators, r: Node)
    requires Anchored(d, a1)
  {
    var at := a1.operators;
    var a := ShiftAnchors(a1, at, |block|);
    Anchored(r, a)
    && Contents(r, a) == Flushed(Contents(d, a1), |a1.treeLogs|, q)
    && Mcmc(r, a).attrs == Mcmc(d, a1).attrs && |Mcmc(r, a).children| == |Mcmc(d, a1).children|
    && d.Element? && r.Element? && r.tag == d.tag && r.attrs == d.attrs && |r.children| == |d.children| + |block|
    && Placed(r.children, at, block)
    && (forall q {:trigger Untouched(a1, q)} :: q != [] && Untouched(a1, q) ==> At(r, ShiftPath(q, at, |block|)) == At(d, q))
  }

  /**
   * The insertion and the flush on the host once the symbiont pieces are
   * in: the model block lands right before the host `operators`, and the
   * queued entries reach the containers.
   */
  method Complete(d: Node, a1: HostAnchors, rootRest: seq<Node>, hostLabel: string, symbiontLabel: string)
    returns (r: Node)
    requires Anchored(d, a1) && CommentFree(d.children) && Find(d.children, "operators") == Some(a1.operators)
    ensures Completed(d, a1, ModelBlock(rootRest, hostLabel, symbiontLabel), Queued(hostLabel, symbiontLabel), r)
  {
    var d2, q := Place(d, a1, rootRest, hostLabel, symbiontLabel);
    r := FlushShifted(d, a1, ModelBlock(rootRest, hostLabel, symbiontLabel), d2, q);
  }

  /** The flush of a host into whose root `block` was inserted before `operators`. */
  method FlushShifted(d: Node, a1: HostAnchors, block: seq<Node>, d2: Node, q: Accumulators) returns (r: Node)
    requires Anchored(d, a1) && d.Element? && a1.operators <= |d.children|
    requires d2 == d.(children := d.children[..a1.operators] + block + d.children[a1.operators..])
    ensures Completed(d, a1, block, q, r)
  {
    var at := a1.operators;
    InsertIntoRoot(d, a1, at, block);
    var a := ShiftAnchors(a1, at, |block|);
    r := Flush(d2, a, q);
    BlockKept(d2, r, a, at, |block|);
    ShiftedFrame(d, d2, r, a1, a, at, block);
  }

  /** The insertion on a root without comments: the block goes right before the host `operators`. */
  method Place(d: Node, a1: HostAnchors, rootRest: seq<Node>, hostLabel: string, symbiontLabel: string)
    returns (r: Node, q: Accumulators)
    requires Anchored(d, a1) && CommentFree(d.children) && Find(d.children, "operators") == Some(a1.operators)
    ensures d.Element? && a1.operators <= |d.children|
    ensures r == d.(children := d.children[..a1.operators] + ModelBlock(rootRest, hostLabel, symbiontLabel) + d.children[a1.operators..])
    ensures q == Queued(hostLabel, symbiontLabel)
  {
    RootChildren(d, a1);
    InsertIndexExact(d.children);
    r, q := InsertModel(d, rootRest, hostLabel, symbiontLabel);
  }

  /** Root children off the references survive the flush: the model block stays put. */
  lemma {:induction false} BlockKept(d2: Node, r: Node, a: HostAnchors, at: nat, n: nat)
    requires RootKept(d2, r) && at + n <= |d2.children|
    requires a.operators < at || at + n <= a.operators
    requires a.mcmc < at || at + n <= a.mcmc
    requires forall q {:trigger Untouched(a, q)} :: Untouched(a, q) ==> At(r, q) == At(d2, q)
    ensures r.children[at..at + n] == d2.children[at..at + n]
  {
    forall t | at <= t < at + n
      ensures r.children[t] == d2.children[t]
    {
      OtherChildUntouched(a, t);
      AtChild(d2, t, []);
      AtChild(r, t, []);
      assert [t] + [] == [t];
    }
  }

  /** A node off the references before the insertion is, after the flush, where the shift puts it. */
  lemma {:induction false} ShiftedFrame(d: Node, d2: Node, r: Node, a1: HostAnchors, a: HostAnchors, at: nat, block: seq<Node>)
    requires d.Element? && at <= |d.children| && d2 == d.(children := d.children[..at] + block + d.children[at..])
    requires forall q :: q != [] && Untouched(a1, q) ==> Untouched(a, ShiftPath(q, at, |block|))
    requires forall q {:trigger Untouched(a, q)} :: Untouched(a, q) ==> At(r, q) == At(d2, q)
    ensures forall q {:trigger Untouched(a1, q)} :: q != [] && Untouched(a1, q) ==> At(r, ShiftPath(q, at, |block|)) == At(d, q)
  {
    forall q | q != [] && Untouched(a1, q)
      ensures At(r, ShiftPath(q, at, |block|)) == At(d, q)
    {
      AtInserted(d, at, block, q);
    }
  }

  /**
   * The merged document: the host with the symbiont pieces in its
   * containers and its `mcmc` (the pieces other than tree logs as they
   * were, after the old children), the model block before its `operators`, the
   * queued entries flushed, and every other node where it was, up to the
   * shift of the root children after the block.
   */
  ghost predicate Merged(h: Node, a0: HostAnchors, p: Parts, hostLabel: string, symbiontLabel: string, r: Node)
    requires Anchored(h, a0)
  {
    var block := ModelBlock(p.rootRest, hostLabel, symbiontLabel);
    var a1 := Adopted(h, a0, p.mcmcRest);
    var a := ShiftAnchors(a1, a0.operators, |block|);
    var c := Contents(h, a0);
    Anchored(r, a)
    && Contents(r, a) == Flushed(Received(c, p), |a0.treeLogs|, Queued(hostLabel, symbiontLabel))
    && Mcmc(r, a).attrs == Mcmc(h, a0).attrs["operatorAnalysis" := "coevolution.ops"]
    && |Mcmc(r, a).children| == |Mcmc(h, a0).children| + |p.mcmcRest|
    && (forall k :: 0 <= k < |p.mcmcRest| && !Tagged(p.mcmcRest[k], "logTree") ==>
          Mcmc(r, a).children[|Mcmc(h, a0).children| + k] == p.mcmcRest[k])
    && h.Element? && r.Element? && r.tag == h.tag && r.attrs == h.attrs && |r.children| == |h.children| + |block|
    && Placed(r.children, a0.operators, block)
    && (forall q {:trigger Untouched(a1, q)} :: q != [] && Untouched(a1, q) && At(h, q).Some? ==>
          At(r, ShiftPath(q, a0.operators, |block|)) == At(h, q))
  }

  /** The script body from the transplant on, on a parsed (comment-free) host root. */
  method Assemble(h: Node, a0: HostAnchors, p: Parts, hostLabel: string, symbiontLabel: string) returns (r: Node)
    requires Anchored(h, a0) && a0.symbiontTreeLogs == []
    requires CommentFree(h.children) && Find(h.children, "operators") == Some(a0.operators)
    ensures Merged(h, a0, p, hostLabel, symbiontLabel, r)
  {
    var d := Transplant(h, a0, p);
    var a1 := Adopted(h, a0, p.mcmcRest);
    TransplantKeepsRoot(h, d, a0, a1);
    r := Complete(d, a1, p.rootRest, hostLabel, symbiontLabel);
    MergedFrom(h, a0, p, hostLabel, symbiontLabel, d, r);
  }

  /** The transplant followed by the insertion and the flush is the merge. */
  lemma {:induction false} MergedFrom(h: Node, a0: HostAnchors, p: Parts, hostLabel: string, symbiontLabel: string, d: Node, r: Node)
    requires Anchored(h, a0) && a0.symbiontTreeLogs == [] && Anchored(d, Adopted(h, a0, p.mcmcRest)) && RootKept(h, d)
    requires Contents(d, Adopted(h, a0, p.mcmcRest)) == Received(Contents(h, a0), p)
    requires Mcmc(d, Adopted(h, a0, p.mcmcRest)).attrs == Mcmc(h, a0).attrs["operatorAnalysis" := "coevolution.ops"]
    requires |Mcmc(d, Adopted(h, a0, p.mcmcRest)).children| == |Mcmc(h, a0).children| + |p.mcmcRest|
    requires Mcmc(d, Adopted(h, a0, p.mcmcRest)).children[|Mcmc(h, a0).children|..] == p.mcmcRest
    requires forall q {:trigger Untouched(Adopted(h, a0, p.mcmcRest), q)} ::
      Untouched(Adopted(h, a0, p.mcmcRest), q) && At(h, q).Some? ==> At(d, q) == At(h, q)
    requires Completed(d, Adopted(h, a0, p.mcmcRest), ModelBlock(p.rootRest, hostLabel, symbiontLabel), Queued(hostLabel, symbiontLabel), r)
    ensures Merged(h, a0, p, hostLabel, symbiontLabel, r)
  {
    var block := ModelBlock(p.rootRest, hostLabel, symbiontLabel);
    var a1 := Adopted(h, a0, p.mcmcRest);
    FrameThrough(h, d, r, a1, a0.operators, |block|);
    RestKept(h, a0, p.mcmcRest, d, a1, block, r);
  }

  /**
   * The elements appended to the host `mcmc` that are not tree logs come
   * through the insertion and the flush unchanged, after the old children.
   */
  lemma {:induction false} RestKept(h: Node, a0: HostAnchors, xs: seq<Node>, d: Node, a1: HostAnchors, block: seq<Node>, r: Node)
    requires Anchored(h, a0) && a0.symbiontTreeLogs == [] && a1 == Adopted(h, a0, xs) && Anchored(d, a1)
    requires |Mcmc(d, a1).children| == |Mcmc(h, a0).children| + |xs| && Mcmc(d, a1).children[|Mcmc(h, a0).children|..] == xs
    requires Anchored(r, ShiftAnchors(a1, a1.operators, |block|))
    requires |Mcmc(r, ShiftAnchors(a1, a1.operators, |block|)).children| == |Mcmc(d, a1).children|
    requires forall q {:trigger Untouched(a1, q)} :: q != [] && Untouched(a1, q) ==>
      At(r, ShiftPath(q, a1.operators, |block|)) == At(d, q)
    ensures forall k :: 0 <= k < |xs| && !Tagged(xs[k], "logTree") ==>
      Mcmc(r, ShiftAnchors(a1, a1.operators, |block|)).children[|Mcmc(h, a0).children| + k] == xs[k]
  {
    forall k | 0 <= k < |xs| && !Tagged(xs[k], "logTree")
      ensures Mcmc(r, ShiftAnchors(a1, a1.operators, |block|)).children[|Mcmc(h, a0).children| + k] == xs[k]
    {
      RestKeptAt(h, a0, xs, d, a1, block, r, k);
    }
  }

  /** One appended element off every container: where the transplant put it, the completion keeps it. */
  lemma {:induction false} RestKeptAt(h: Node, a0: HostAnchors, xs: seq<Node>, d: Node, a1: HostAnchors, block: seq<Node>, r: Node, k: nat)
    requires Anchored(h, a0) && a0.symbiontTreeLogs == [] && a1 == Adopted(h, a0, xs) && Anchored(d, a1)
    requires |Mcmc(d, a1).children| == |Mcmc(h, a0).children| + |xs| && Mcmc(d, a1).children[|Mcmc(h, a0).children|..] == xs
    requires Anchored(r, ShiftAnchors(a1, a1.operators, |block|))
    requires |Mcmc(r, ShiftAnchors(a1, a1.operators, |block|)).children| == |Mcmc(d, a1).children|
    requires forall q {:trigger Untouched(a1, q)} :: q != [] && Untouched(a1, q) ==>
      At(r, ShiftPath(q, a1.operators, |block|)) == At(d, q)
    requires k < |xs| && !Tagged(xs[k], "logTree")
    ensures Mcmc(r, ShiftAnchors(a1, a1.operators, |block|)).children[|Mcmc(h, a0).children| + k] == xs[k]
  {
    var base := |Mcmc(h, a0).children|;
    var a := ShiftAnchors(a1, a1.operators, |block|);
    var path := [a1.mcmc, base + k];
    RestUntouched(h, a0, xs, k);
    AtPair(d, a1.mcmc, base + k);
    assert Mcmc(d, a1).children[base + k] == Mcmc(d, a1).children[base..][k];
    assert At(r, ShiftPath(path, a1.operators, |block|)) == Some(xs[k]);
    assert ShiftPath(path, a1.operators, |block|) == [a.mcmc, base + k];
    AtPair(r, a.mcmc, base + k);
  }

  /** A path to an appended element that is not a tree log leads through none of the containers. */
  lemma {:induction false} RestUntouched(h: Node, a0: HostAnchors, xs: seq<Node>, k: nat)
    requires Anchored(h, a0) && a0.symbiontTreeLogs == [] && k < |xs| && !Tagged(xs[k], "logTree")
    ensures Untouched(Adopted(h, a0, xs), [a0.mcmc, |Mcmc(h, a0).children| + k])
  {
    var a1 := Adopted(h, a0, xs);
    var path := [a0.mcmc, |Mcmc(h, a0).children| + k];
    forall i | 0 <= i < |a1.Leaves()|
      ensures Disjoint(path, a1.Leaves()[i])
    {
      if i < 4 + |a0.treeLogs| {
        HostLeafBefore(h, a0, i);
        assert a1.Leaves()[i] == a0.Leaves()[i];
        DisjointAt(path, a1.Leaves()[i], if i == 0 then 0 else 1);
      } else {
        var found := FindAll(xs, "logTree");
        var f := found[i - 4 - |a0.treeLogs|];
        assert f in found;
        assert a1.Leaves()[i] == [a0.mcmc, |Mcmc(h, a0).children| + f];
        DisjointAt(path, a1.Leaves()[i], 1);
      }
    }
  }

  /** The host's own containers are `operators` or lie among the old children of `mcmc`. */
  lemma {:induction false} HostLeafBefore(h: Node, a0: HostAnchors, i: nat)
    requires Anchored(h, a0) && a0.symbiontTreeLogs == [] && i < |a0.Leaves()|
    ensures i == 0 ==> a0.Leaves()[i] == [a0.operators] && a0.operators != a0.mcmc
    ensures i != 0 ==> |a0.Leaves()[i]| >= 2 && a0.Leaves()[i][0] == a0.mcmc && a0.Leaves()[i][1] < |Mcmc(h, a0).children|
  {
    var leaf := a0.Leaves()[i];
    assert TaggedAt(h, leaf, LeafTag(i));
    if i != 0 {
      AtPair(h, a0.mcmc, leaf[1]);
      if i < 3 {
        AtPair(h, a0.mcmc, a0.posterior);
        assert leaf[1] == a0.posterior;
      } else {
        assert leaf == [a0.mcmc, leaf[1]];
      }
    }
  }

  /** Nodes kept by the transplant and then by the completion are kept by both. */
  lemma {:induction false} FrameThrough(h: Node, d: Node, r: Node, a1: HostAnchors, at: nat, n: nat)
    requires forall q {:trigger Untouched(a1, q)} :: Untouched(a1, q) && At(h, q).Some? ==> At(d, q) == At(h, q)
    requires forall q {:trigger Untouched(a1, q)} :: q != [] && Untouched(a1, q) ==> At(r, ShiftPath(q, at, n)) == At(d, q)
    ensures forall q {:trigger Untouched(a1, q)} :: q != [] && Untouched(a1, q) && At(h, q).Some? ==>
      At(r, ShiftPath(q, at, n)) == At(h, q)
  {
    forall q {:trigger Untouched(a1, q)} | q != [] && Untouched(a1, q) && At(h, q).Some?
      ensures At(r, ShiftPath(q, at, n)) == At(h, q)
    {
      assert At(d, q) == At(h, q);
    }
  }

  /**
   * The whole script on parsed documents and the lines of the association
   * file: both documents namespaced with their labels, the table read, the
   * symbiont taxa associated, the host and symbiont containers located,
   * then the transplant, the insertion and the flush. A failure at any step
   * produces no document, and the error is the first one met in that order.
   */
  method Merge(host: Node, symbiont: Node, lines: seq<string>, hostLabel: string, symbiontLabel: string)
    returns (r: Result<Node, SetupError>)
    requires host.Element? && CommentFree(host.children)
    ensures var h, s, t := AppendIdPrefix(host, hostLabel), AppendIdPrefix(symbiont, symbiontLabel), Table(lines);
      r.Success? <==>
        t.Success? && AllAssociated(s, t.value) && LocateHost(h).Success? && Dismantle(WithHosts(s, t.value)).Success?
    ensures Table(lines).Failure? ==> r == Failure(Table(lines).error)
    ensures var s, t := AppendIdPrefix(symbiont, symbiontLabel), Table(lines);
      t.Success? && !AllAssociated(s, t.value) ==>
        r.Failure? && if s.Element? && Find(s.children, "taxa").Some?
                      then r.error.UnassociatedTaxon? && !Associated(r.error.taxon, t.value)
                           && r.error.taxon in s.children[Find(s.children, "taxa").value].children
                      else r.error == AnchorNotFound("taxa")
    ensures var h, s, t := AppendIdPrefix(host, hostLabel), AppendIdPrefix(symbiont, symbiontLabel), Table(lines);
      t.Success? && AllAssociated(s, t.value) && LocateHost(h).Failure? ==> r == Failure(LocateHost(h).error)
    ensures var h, s, t := AppendIdPrefix(host, hostLabel), AppendIdPrefix(symbiont, symbiontLabel), Table(lines);
      t.Success? && AllAssociated(s, t.value) && LocateHost(h).Success? && Dismantle(WithHosts(s, t.value)).Failure? ==>
        r == Failure(Dismantle(WithHosts(s, t.value)).error)
    ensures var h, s, t := AppendIdPrefix(host, hostLabel), AppendIdPrefix(symbiont, symbiontLabel), Table(lines);
      r.Success? ==>
        (t.Success? && AllAssociated(s, t.value) && LocateHost(h).Success? && Dismantle(WithHosts(s, t.value)).Success?
         && Merged(h, LocateHost(h).value, Dismantle(WithHosts(s, t.value)).value, hostLabel, symbiontLabel, r.value))
  {
    var h := AppendIdPrefix(host, hostLabel);
    var s := AppendIdPrefix(symbiont, symbiontLabel);
    var table := ParseAssociations(lines);
    if table.Failure? {
      return Failure(table.error);
    }
    var associated := Associate(s, table.value);
    if associated.Failure? {
      return Failure(associated.error);
    }
    var anchors := LocateHost(h);
    if anchors.Failure? {
      return Failure(anchors.error);
    }
    var parts := Dismantle(associated.value);
    if parts.Failure? {
      return Failure(parts.error);
    }
    var merged := Assemble(h, anchors.value, parts.value, hostLabel, symbiontLabel);
    r := Success(merged);
  }

  /** A node without the `count` children from position `from` on: what a moved element leaves behind. */
  function Detach(n: Node, from: nat, count: nat): (r: Node)
    requires n.Element? && from + count <= |n.children|
    ensures r.Element? && r.tag == n.tag && r.attrs == n.attrs && |r.children| == |n.children| - count
  {
    n.(children := n.children[..from] + n.children[from + count..])
  }

  /**
   * The tree-log loop as written: `log.extend(traits)` hands the very same
   * trait elements to each log in turn, and an element has one parent, so
   * each log takes them from the log before; all but the last log keep
   * only the two markers.
   */
  method TreeLogsAsWritten(logs: seq<Node>, traits: seq<Node>) returns (r: seq<Node>)
    requires forall k :: 0 <= k < |logs| ==> logs[k].Element?
    ensures |r| == |logs|
    ensures forall k :: 0 <= k < |logs| - 1 ==> r[k] == AppendChildren(logs[k], Bracket([]))
    ensures |logs| > 0 ==> r[|logs| - 1] == AppendChildren(logs[|logs| - 1], Bracket(traits))
  {
    r := logs;
    for k := 0 to |logs|
      invariant |r| == |logs|
      invariant forall j :: 0 <= j < k - 1 ==> r[j] == AppendChildren(logs[j], Bracket([]))
      invariant k > 0 ==> r[k - 1] == AppendChildren(logs[k - 1], Bracket(traits))
      invariant forall j :: k <= j < |logs| ==> r[j] == logs[j]
    {
      if k > 0 {
        var from := |logs[k - 1].children| + 1;
        var held := r[k - 1];
        TakenBack(logs[k - 1], traits);
        r := r[k - 1 := Detach(held, from, |traits|)];
      }
      var log := AppendChildren(r[k], [Begin()]);
      log := AppendChildren(log, traits);
      log := AppendChildren(log, [End()]);
      Bracketed(r[k], traits);
      r := r[k := log];
    }
  }

  /** Taking the traits back out of a bracketed log leaves the two markers. */
  lemma {:induction false} TakenBack(log: Node, traits: seq<Node>)
    requires log.Element?
    ensures Detach(AppendChildren(log, Bracket(traits)), |log.children| + 1, |traits|) == AppendChildren(log, Bracket([]))
  {
    var held := AppendChildren(log, Bracket(traits));
    var from := |log.children| + 1;
    assert held.children[..from] + held.children[from + |traits|..] == log.children + Bracket([]);
  }

  /** Begin marker, traits, end marker, appended one after the other, make the bracket. */
  lemma {:induction false} Bracketed(log: Node, traits: seq<Node>)
    requires log.Element?
    ensures AppendChildren(AppendChildren(AppendChildren(log, [Begin()]), traits), [End()]) == AppendChildren(log, Bracket(traits))
  {
    assert log.children + [Begin()] + traits + [End()] == log.children + Bracket(traits);
  }

  /**
   * Where the loop as written and `Flushed` part: with a trait to hand out,
   * the first of two or more tree logs ends up without it.
   */
  lemma {:induction false} FirstTreeLogLosesTraits(log: Node, traits: seq<Node>)
    requires log.Element? && |traits| > 0 && traits[0].Element? && traits[0] !in log.children
    ensures traits[0] !in AppendChildren(log, Bracket([])).children
    ensures traits[0] in AppendChildren(log, Bracket(traits)).children
  {
    assert AppendChildren(log, Bracket(traits)).children[|log.children| + 1] == traits[0];
  }
}
