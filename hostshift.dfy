/**
 * The host-shift proposal shared by `org.ithinktree.becky.HostShiftOperator`
 * and `dr.cophylogeny.HostShiftOperator`: pick a symbiont node, rearrange the
 * pool of candidate hosts, and move the node to the first candidate whose
 * relationships to the hosts of the node's two children are admissible.
 * The random choices (the node, the rearrangement) are parameters.
 */
module HostShift {
  import opened Wrappers
  import opened Trees
  import opened Relationships
  import opened Likelihood

  /** How candidate `host` relates to the children's hosts; nothing for NO_HOST. */
  function Relations(hp: seq<int>, host: int, c1: int, c2: int): set<Relationship>
    requires Acyclic(hp) && Ref(hp, host) && Ref(hp, c1) && Ref(hp, c2)
  {
    if host == NO_HOST then {}
    else {Relation(hp, host, c1).relationship, Relation(hp, host, c2).relationship}
  }

  /** The loop's exit test: no `Ancestor`, and not `Self` together with `Descendant`. */
  predicate Admissible(rs: set<Relationship>)
  {
    !(Ancestor in rs || (Self in rs && Descendant in rs))
  }

  /** Every pool entry is a host node or NO_HOST. */
  predicate Candidates(hp: seq<int>, pool: seq<int>)
  {
    forall i :: 0 <= i < |pool| ==> Ref(hp, pool[i])
  }

  /** The initial pool: NO_HOST followed by every host node, or just the host nodes. */
  function Pool(n: nat, withNoHost: bool): (r: seq<int>)
    ensures |r| == if withNoHost then n + 1 else n
    ensures forall i :: 0 <= i < |r| ==> r[i] == if withNoHost then i - 1 else i
  {
    if withNoHost then seq(n + 1, i => i - 1) else seq(n, i => i)
  }

  /** The position of the first admissible candidate, scanning the pool in order. */
  function FirstAdmissible(hp: seq<int>, pool: seq<int>, c1: int, c2: int): (r: Option<nat>)
    requires Acyclic(hp) && Candidates(hp, pool) && Ref(hp, c1) && Ref(hp, c2)
    ensures r.Some? ==> r.value < |pool| && Admissible(Relations(hp, pool[r.value], c1, c2))
    ensures r.Some? ==> forall j :: 0 <= j < r.value ==> !Admissible(Relations(hp, pool[j], c1, c2))
    ensures r.None? <==> forall j :: 0 <= j < |pool| ==> !Admissible(Relations(hp, pool[j], c1, c2))
  {
    if |pool| == 0 then None
    else if Admissible(Relations(hp, pool[0], c1, c2)) then Some(0)
    else
      match FirstAdmissible(hp, pool[1..], c1, c2)
      case None => None
      case Some(k) => Some(k + 1)
  }

  /** NO_HOST relates to nothing, so a pool holding it always offers an admissible host. */
  lemma {:induction false} NoHostAlwaysAdmissible(hp: seq<int>, pool: seq<int>, c1: int, c2: int)
    requires Acyclic(hp) && Candidates(hp, pool) && Ref(hp, c1) && Ref(hp, c2)
    requires NO_HOST in pool
    ensures FirstAdmissible(hp, pool, c1, c2).Some?
    decreases |pool|
  {
    if pool[0] != NO_HOST {
      assert NO_HOST in pool[1..];
      NoHostAlwaysAdmissible(hp, pool[1..], c1, c2);
    }
  }

  /**
   * The do-while over the rearranged pool: examine candidates in order until
   * one is admissible or the pool is exhausted. `host` is the last candidate
   * examined and `ok` says whether it passed.
   */
  method Scan(hp: seq<int>, pool: array<int>, c1: int, c2: int) returns (host: int, ok: bool)
    requires Acyclic(hp) && Candidates(hp, pool[..]) && Ref(hp, c1) && Ref(hp, c2)
    requires pool.Length > 0
    ensures ok <==> FirstAdmissible(hp, pool[..], c1, c2).Some?
    ensures ok ==> host == pool[FirstAdmissible(hp, pool[..], c1, c2).value]
    ensures !ok ==> host == pool[pool.Length - 1]
  {
    ghost var cands := pool[..];
    var i := 0;
    var relationships: set<Relationship>;
    while true
      invariant 0 <= i < pool.Length
      invariant forall j :: 0 <= j < i ==> !Admissible(Relations(hp, cands[j], c1, c2))
      decreases pool.Length - i
    {
      host := pool[i];
      assert host == cands[i];
      relationships := Relate(hp, host, c1, c2);
      i := i + 1;
      if i >= pool.Length {
        ok := Admissible(relationships);
        if ok {
          FirstAt(hp, cands, c1, c2, i - 1);
        } else {
          assert FirstAdmissible(hp, cands, c1, c2).None?;
        }
        break;
      }
      if Admissible(relationships) {
        ok := true;
        FirstAt(hp, cands, c1, c2, i - 1);
        break;
      }
    }
  }

  /** The relationships of one candidate, as the loop body computes them. */
  method Relate(hp: seq<int>, host: int, c1: int, c2: int) returns (relationships: set<Relationship>)
    requires Acyclic(hp) && Ref(hp, host) && Ref(hp, c1) && Ref(hp, c2)
    ensures relationships == Relations(hp, host, c1, c2)
    ensures host == NO_HOST ==> relationships == {}
  {
    relationships := {};
    if host != NO_HOST {
      var r1 := DetermineRelationship(hp, host, c1);
      var r2 := DetermineRelationship(hp, host, c2);
      relationships := relationships + {r1.relationship} + {r2.relationship};
    }
  }

  /** A candidate that passes after every earlier one failed is the first admissible one. */
  lemma {:induction false} FirstAt(hp: seq<int>, pool: seq<int>, c1: int, c2: int, i: nat)
    requires Acyclic(hp) && Candidates(hp, pool) && Ref(hp, c1) && Ref(hp, c2)
    requires i < |pool| && Admissible(Relations(hp, pool[i], c1, c2))
    requires forall j :: 0 <= j < i ==> !Admissible(Relations(hp, pool[j], c1, c2))
    ensures FirstAdmissible(hp, pool, c1, c2) == Some(i)
  {
    var r := FirstAdmissible(hp, pool, c1, c2);
    assert r.Some?;
    if r.value < i {
      assert false;
    } else if r.value > i {
      assert false;
    }
  }

  /** Replace the pool's order by `order`, a rearrangement of it (`MathUtils.shuffle`). */
  method Shuffle(pool: array<int>, order: seq<int>)
    requires |order| == pool.Length && multiset(order) == multiset(pool[..])
    modifies pool
    ensures pool[..] == order
  {
    forall i | 0 <= i < pool.Length {
      pool[i] := order[i];
    }
  }

  /** A rearrangement of a pool holds the same candidates. */
  lemma {:induction false} SameCandidates(hp: seq<int>, pool: seq<int>, order: seq<int>)
    requires Candidates(hp, pool) && multiset(order) == multiset(pool)
    ensures Candidates(hp, order)
  {
    forall i | 0 <= i < |order|
      ensures Ref(hp, order[i])
    {
      assert order[i] in multiset(pool);
    }
  }

  /**
   * One proposal: rearrange the pool as `order`, scan it for the children of
   * `node`, and move `node` to the host found; when no candidate is
   * admissible nothing but the pool's order changes. The ratio is always 0.
   */
  method Propose(hp: seq<int>, kids: seq<seq<nat>>, likelihood: CophylogenyLikelihood, pool: array<int>,
                 node: nat, order: seq<int>) returns (r: real)
    requires likelihood.Valid() && Acyclic(hp) && likelihood.hostCount == |hp|
    requires pool != likelihood.states && pool != likelihood.storedStates
    requires Candidates(hp, pool[..]) && pool.Length > 0
    requires node < likelihood.states.Length && node < |kids| && |kids[node]| == 2
    requires kids[node][0] < likelihood.states.Length && kids[node][1] < likelihood.states.Length
    requires |order| == pool.Length && multiset(order) == multiset(pool[..])
    modifies pool, likelihood, likelihood.states
    ensures r == 0.0 && pool[..] == order && likelihood.Valid()
    ensures Candidates(hp, order)
    ensures var c1, c2 := old(likelihood.states[kids[node][0]]), old(likelihood.states[kids[node][1]]);
      Ref(hp, c1) && Ref(hp, c2)
      && match FirstAdmissible(hp, order, c1, c2)
         case Some(k) =>
           likelihood.states[..] == old(likelihood.states[..])[node := order[k]] && !likelihood.likelihoodKnown
         case None =>
           likelihood.states[..] == old(likelihood.states[..]) && likelihood.likelihoodKnown == old(likelihood.likelihoodKnown)
    ensures likelihood.storedStates[..] == old(likelihood.storedStates[..])
    ensures likelihood.logLikelihood == old(likelihood.logLikelihood)
    ensures likelihood.storedLogLikelihood == old(likelihood.storedLogLikelihood)
    ensures likelihood.storedLikelihoodKnown == old(likelihood.storedLikelihoodKnown)
  {
    var child1Host := likelihood.GetStatesForNode(kids[node][0]);
    var child2Host := likelihood.GetStatesForNode(kids[node][1]);
    SameCandidates(hp, pool[..], order);
    Shuffle(pool, order);
    var host, ok := Scan(hp, pool, Encode(child1Host), Encode(child2Host));
    if ok {
      assert host in order;
      likelihood.SetStatesForNode(node, Decode(host));
    }
    return 0.0;
  }

  /** `org.ithinktree.becky.HostShiftOperator`: NO_HOST is a candidate only when `sampleNoHost`. */
  class HostShiftOperator {
    const hostTree: seq<int>
    /** The children of each symbiont node, in order. */
    const symbiontTree: seq<seq<nat>>
    const likelihood: CophylogenyLikelihood
    const sampleNoHost: bool
    const weight: real
    /** `hostNodeIndices`: the candidate pool, kept in its last rearranged order. */
    const hostNodeIndices: array<int>

    ghost predicate Valid()
      reads this, likelihood, likelihood.states, likelihood.storedStates, hostNodeIndices
    {
      Acyclic(hostTree) && |hostTree| > 0
      && likelihood.Valid() && likelihood.hostCount == |hostTree|
      && hostNodeIndices != likelihood.states && hostNodeIndices != likelihood.storedStates
      && multiset(hostNodeIndices[..]) == multiset(Pool(|hostTree|, sampleNoHost))
    }

    /** The pool is every host node, plus NO_HOST when `sampleNoHost`, in the order `order`. */
    constructor (hostTree: seq<int>, symbiontTree: seq<seq<nat>>, likelihood: CophylogenyLikelihood,
                 sampleNoHost: bool, weight: real, order: seq<int>)
      requires Acyclic(hostTree) && |hostTree| > 0
      requires likelihood.Valid() && likelihood.hostCount == |hostTree|
      requires multiset(order) == multiset(Pool(|hostTree|, sampleNoHost))
      ensures Valid() && fresh(hostNodeIndices)
      ensures hostNodeIndices[..] == order
      ensures this.hostTree == hostTree && this.symbiontTree == symbiontTree && this.likelihood == likelihood
      ensures this.sampleNoHost == sampleNoHost && this.weight == weight
    {
      this.hostTree := hostTree;
      this.symbiontTree := symbiontTree;
      this.likelihood := likelihood;
      this.sampleNoHost := sampleNoHost;
      this.weight := weight;
      var n := |hostTree|;
      var indices: array<int>;
      if sampleNoHost {
        indices := new int[n + 1];
        var i := 0;
        while i < indices.Length
          invariant 0 <= i <= indices.Length
          invariant forall j :: 0 <= j < i ==> indices[j] == j - 1
        {
          indices[i] := i - 1;
          i := i + 1;
        }
        assert indices[..] == Pool(n, true);
        assert |order| == n + 1 by {
          assert |multiset(order)| == |multiset(Pool(n, true))|;
        }
        Shuffle(indices, order);
      } else {
        assert |order| == n by {
          assert |multiset(order)| == |multiset(Pool(n, false))|;
        }
        indices := new int[n](i requires 0 <= i < n => order[i]);
        assert indices[..] == order;
      }
      hostNodeIndices := indices;
    }

    /** `doOperation`, with the drawn internal node `node` and the rearrangement `order`. */
    method DoOperation(node: nat, order: seq<int>) returns (r: real)
      requires Valid()
      requires node < |symbiontTree| && |symbiontTree[node]| == 2 && node < likelihood.states.Length
      requires symbiontTree[node][0] < likelihood.states.Length && symbiontTree[node][1] < likelihood.states.Length
      requires multiset(order) == multiset(hostNodeIndices[..])
      modifies hostNodeIndices, likelihood, likelihood.states
      ensures Valid() && r == 0.0 && hostNodeIndices[..] == order
      ensures var c1, c2 := old(likelihood.states[symbiontTree[node][0]]), old(likelihood.states[symbiontTree[node][1]]);
        Ref(hostTree, c1) && Ref(hostTree, c2) && Candidates(hostTree, order)
        && match FirstAdmissible(hostTree, order, c1, c2)
           case Some(k) =>
             likelihood.states[..] == old(likelihood.states[..])[node := order[k]] && !likelihood.likelihoodKnown
           case None =>
             likelihood.states[..] == old(likelihood.states[..]) && likelihood.likelihoodKnown == old(likelihood.likelihoodKnown)
      ensures likelihood.storedStates[..] == old(likelihood.storedStates[..])
      ensures likelihood.logLikelihood == old(likelihood.logLikelihood)
      ensures likelihood.storedLogLikelihood == old(likelihood.storedLogLikelihood)
      ensures likelihood.storedLikelihoodKnown == old(likelihood.storedLikelihoodKnown)
    {
      assert |order| == hostNodeIndices.Length by {
        assert |multiset(order)| == |multiset(hostNodeIndices[..])|;
      }
      PoolCandidates(hostTree, hostNodeIndices[..], sampleNoHost);
      r := Propose(hostTree, symbiontTree, likelihood, hostNodeIndices, node, order);
    }
  }

  /** `dr.cophylogeny.HostShiftOperator`: NO_HOST is always a candidate. */
  class CophylogenyHostShiftOperator {
    const hostTree: seq<int>
    const symbiontTree: seq<seq<nat>>
    const likelihood: CophylogenyLikelihood
    const weight: real
    const hostNodeIndices: array<int>

    ghost predicate Valid()
      reads this, likelihood, likelihood.states, likelihood.storedStates, hostNodeIndices
    {
      Acyclic(hostTree) && |hostTree| > 0
      && likelihood.Valid() && likelihood.hostCount == |hostTree|
      && hostNodeIndices != likelihood.states && hostNodeIndices != likelihood.storedStates
      && multiset(hostNodeIndices[..]) == multiset(Pool(|hostTree|, true))
    }

    /** The pool is NO_HOST and every host node, in the order `order`. */
    constructor (hostTree: seq<int>, symbiontTree: seq<seq<nat>>, likelihood: CophylogenyLikelihood,
                 weight: real, order: seq<int>)
      requires Acyclic(hostTree) && |hostTree| > 0
      requires likelihood.Valid() && likelihood.hostCount == |hostTree|
      requires multiset(order) == multiset(Pool(|hostTree|, true))
      ensures Valid() && fresh(hostNodeIndices)
      ensures hostNodeIndices[..] == order
      ensures this.hostTree == hostTree && this.symbiontTree == symbiontTree && this.likelihood == likelihood
      ensures this.weight == weight
    {
      this.hostTree := hostTree;
      this.symbiontTree := symbiontTree;
      this.likelihood := likelihood;
      this.weight := weight;
      var n := |hostTree|;
      var indices := new int[n + 1];
      var i := 0;
      while i < indices.Length
        invariant 0 <= i <= indices.Length
        invariant forall j :: 0 <= j < i ==> indices[j] == j - 1
      {
        indices[i] := i - 1;
        i := i + 1;
      }
      assert indices[..] == Pool(n, true);
      assert |order| == n + 1 by {
        assert |multiset(order)| == |multiset(Pool(n, true))|;
      }
      Shuffle(indices, order);
      hostNodeIndices := indices;
    }

    /**
     * `doOperation`: as the other operator; with NO_HOST always in the pool
     * some candidate is always admissible, so the node always moves.
     */
    method DoOperation(node: nat, order: seq<int>) returns (r: real)
      requires Valid()
      requires node < |symbiontTree| && |symbiontTree[node]| == 2 && node < likelihood.states.Length
      requires symbiontTree[node][0] < likelihood.states.Length && symbiontTree[node][1] < likelihood.states.Length
      requires multiset(order) == multiset(hostNodeIndices[..])
      modifies hostNodeIndices, likelihood, likelihood.states
      ensures Valid() && r == 0.0 && hostNodeIndices[..] == order
      ensures var c1, c2 := old(likelihood.states[symbiontTree[node][0]]), old(likelihood.states[symbiontTree[node][1]]);
        Ref(hostTree, c1) && Ref(hostTree, c2) && Candidates(hostTree, order)
        && FirstAdmissible(hostTree, order, c1, c2).Some?
        && likelihood.states[..] == old(likelihood.states[..])[node := order[FirstAdmissible(hostTree, order, c1, c2).value]]
        && !likelihood.likelihoodKnown
      ensures likelihood.storedStates[..] == old(likelihood.storedStates[..])
      ensures likelihood.logLikelihood == old(likelihood.logLikelihood)
      ensures likelihood.storedLogLikelihood == old(likelihood.storedLogLikelihood)
      ensures likelihood.storedLikelihoodKnown == old(likelihood.storedLikelihoodKnown)
    {
      assert |order| == hostNodeIndices.Length by {
        assert |multiset(order)| == |multiset(hostNodeIndices[..])|;
      }
      PoolCandidates(hostTree, hostNodeIndices[..], true);
      ghost var c1, c2 := likelihood.states[symbiontTree[node][0]], likelihood.states[symbiontTree[node][1]];
      SameCandidates(hostTree, hostNodeIndices[..], order);
      assert NO_HOST in order by {
        var initial := Pool(|hostTree|, true);
        assert initial[0] == NO_HOST && NO_HOST in multiset(initial);
        assert NO_HOST in multiset(order);
      }
      NoHostAlwaysAdmissible(hostTree, order, c1, c2);
      r := Propose(hostTree, symbiontTree, likelihood, hostNodeIndices, node, order);
    }
  }

  /** Every rearrangement of the initial pool holds only host nodes and NO_HOST. */
  lemma {:induction false} PoolCandidates(hp: seq<int>, pool: seq<int>, withNoHost: bool)
    requires InRange(hp) && multiset(pool) == multiset(Pool(|hp|, withNoHost))
    ensures Candidates(hp, pool)
  {
    forall i | 0 <= i < |pool|
      ensures Ref(hp, pool[i])
    {
      assert pool[i] in multiset(Pool(|hp|, withNoHost));
    }
  }
}
