/**
 * `SimpleCophylogenyModel`: the three event rates, their cached copies, the
 * table of reconstructed events per symbiont node, and the case split of
 * `calculateNodeLogLikelihood` that decides which events a node records.
 * The likelihood values themselves (integrals, products of floating-point
 * terms) are not computed here: where a recorded event carries one, it is a
 * parameter.
 */
module SimpleModel {
  import opened Wrappers
  import opened Trees
  import opened Relationships
  import HS = HostShift

  datatype EventType = Duplication | HostShift | Loss | NoEvent

  /** An event with the partial likelihood of the subtree below it. */
  datatype Event = Event(event: EventType, partialLikelihood: real)

  /** The shared single events, each with partial likelihood 1.0. */
  const DUPLICATION: Event := Event(Duplication, 1.0)
  const HOST_SHIFT: Event := Event(HostShift, 1.0)
  const NO_EVENT: Event := Event(NoEvent, 1.0)

  /** `Units.Type`: what branch lengths are measured in. */
  datatype UnitsType = Substitutions | Generations | Days | Months | Years

  /** `Parameter.DefaultBounds(upper, lower, dimension)`; an absent upper bound is +infinity. */
  datatype Bounds = Bounds(upper: Option<real>, lower: real, dimension: nat)

  /** A value of a one-dimensional parameter lies within its bounds. */
  predicate Within(b: Bounds, v: real)
  {
    b.lower <= v && (b.upper.None? || v <= b.upper.value)
  }

  /** The bounds every rate parameter is given: from 0.0 up to +infinity, one dimension. */
  function RateBounds(): (b: Bounds)
    ensures b.dimension == 1
    ensures forall v: real :: Within(b, v) <==> 0.0 <= v
  {
    Bounds(None, 0.0, 1)
  }

  /**
   * The events a node records, or None when `calculateNodeLogLikelihood`
   * returns negative infinity without recording anything. `r1`, `r2` relate
   * the node's host to its children's hosts; `nr1`, `nr2` relate the host's
   * first child to the children's hosts (only read when both children
   * descend); `case1`, `case2` are the partial likelihoods of the two
   * explanations of a duplication followed by losses.
   */
  function Reconstruction(coexists: bool, r1: Relationship, r2: Relationship,
                          nr1: Relationship, nr2: Relationship, case1: real, case2: real): Option<seq<Event>>
  {
    if !coexists then None
    else if r1 == Descendant && r2 == Descendant then
      if nr1 == nr2 || (nr1 == Sister && nr2 == Cousin) || (nr2 == Sister && nr1 == Cousin) then
        Some([Event(Duplication, case1), Event(NoEvent, case2)])
      else Some([NO_EVENT])
    else if r1 == Self && r2 == Self then Some([DUPLICATION])
    else if r1 == Self && (r2 == Cousin || r2 == Sister) then Some([HOST_SHIFT])
    else if r2 == Self && (r1 == Cousin || r1 == Sister) then Some([HOST_SHIFT])
    else if (r1 == Cousin || r1 == Sister) && (r2 == Cousin || r2 == Sister) then Some([HOST_SHIFT])
    else if r1 == Descendant && (r2 == Cousin || r2 == Sister) then Some([HOST_SHIFT])
    else if (r1 == Cousin || r1 == Sister) && r2 == Descendant then Some([HOST_SHIFT])
    else None
  }

  /** A relationship across which a lineage can only have arrived by a host shift. */
  predicate Shifted(r: Relationship)
  {
    r == Sister || r == Cousin
  }

  class SimpleCophylogenyModel {
    var units: UnitsType
    /** The current values of the three rate parameters. */
    var duplicationParameter: real
    var hostShiftParameter: real
    var lossParameter: real
    /** The bounds attached to each rate parameter. */
    var parameterBounds: seq<Bounds>
    /** The cached rates, refreshed by `updateVariables`. */
    var duplicationRate: real
    var hostShiftRate: real
    var lossRate: real
    var overallRate: real
    var dirty: bool
    /** `reconstructedEvents`: one entry per symbiont node; None is a null row. */
    var reconstructedEvents: seq<Option<seq<Event>>>

    /** The three rate parameters are bounded to [0, +infinity); the caches are stale. */
    constructor (duplication: real, hostShift: real, loss: real, units: UnitsType)
      ensures this.units == units && dirty
      ensures duplicationParameter == duplication && hostShiftParameter == hostShift && lossParameter == loss
      ensures parameterBounds == [RateBounds(), RateBounds(), RateBounds()]
      ensures reconstructedEvents == []
    {
      this.units := units;
      duplicationParameter := duplication;
      hostShiftParameter := hostShift;
      lossParameter := loss;
      parameterBounds := [RateBounds(), RateBounds(), RateBounds()];
      dirty := true;
      reconstructedEvents := [];
    }

    /** `setUnits`. */
    method SetUnits(u: UnitsType)
      modifies this
      ensures GetUnits() == u
      ensures duplicationRate == old(duplicationRate) && hostShiftRate == old(hostShiftRate) && lossRate == old(lossRate)
      ensures overallRate == old(overallRate) && dirty == old(dirty)
      ensures reconstructedEvents == old(reconstructedEvents)
    {
      units := u;
    }

    /** `getUnits`. */
    function GetUnits(): UnitsType
      reads this
    {
      units
    }

    /** `getEventRate`: the cached rate of an event; an absence of events has rate 1.0. */
    function EventRate(e: EventType): (r: real)
      reads this
      ensures e == NoEvent ==> r == 1.0
    {
      match e
      case Duplication => duplicationRate
      case HostShift => hostShiftRate
      case Loss => lossRate
      case NoEvent => 1.0
    }

    /** `updateVariables`: copy the parameters into the caches; the overall rate is the sum of the event rates. */
    method UpdateVariables()
      modifies this
      ensures !dirty
      ensures EventRate(Duplication) == duplicationParameter
      ensures EventRate(HostShift) == hostShiftParameter
      ensures EventRate(Loss) == lossParameter
      ensures overallRate == EventRate(Duplication) + EventRate(HostShift) + EventRate(Loss)
      ensures units == old(units) && reconstructedEvents == old(reconstructedEvents)
      ensures duplicationParameter == old(duplicationParameter) && hostShiftParameter == old(hostShiftParameter)
      ensures lossParameter == old(lossParameter) && parameterBounds == old(parameterBounds)
    {
      duplicationRate := duplicationParameter;
      hostShiftRate := hostShiftParameter;
      lossRate := lossParameter;
      overallRate := duplicationRate + hostShiftRate + lossRate;
      dirty := false;
    }

    /**
     * `initialize`: a null row per node of the symbiont tree, then
     * `[NO_EVENT]` for each external node, `external` holding their numbers.
     */
    method Initialize(nodeCount: nat, external: seq<nat>)
      requires forall i :: 0 <= i < |external| ==> external[i] < nodeCount
      modifies this
      ensures |reconstructedEvents| == nodeCount
      ensures forall k :: 0 <= k < nodeCount ==>
        reconstructedEvents[k] == if k in external then Some([NO_EVENT]) else None
      ensures units == old(units) && dirty == old(dirty)
      ensures duplicationRate == old(duplicationRate) && hostShiftRate == old(hostShiftRate) && lossRate == old(lossRate)
      ensures overallRate == old(overallRate)
      ensures duplicationParameter == old(duplicationParameter) && hostShiftParameter == old(hostShiftParameter)
      ensures lossParameter == old(lossParameter) && parameterBounds == old(parameterBounds)
    {
      reconstructedEvents := seq(nodeCount, _ => None);
      var i := 0;
      while i < |external|
        invariant 0 <= i <= |external| && |reconstructedEvents| == nodeCount
        invariant forall k :: 0 <= k < nodeCount ==>
          reconstructedEvents[k] == if k in external[..i] then Some([NO_EVENT]) else None
        invariant units == old(units) && dirty == old(dirty)
        invariant duplicationRate == old(duplicationRate) && hostShiftRate == old(hostShiftRate) && lossRate == old(lossRate)
        invariant overallRate == old(overallRate)
        invariant duplicationParameter == old(duplicationParameter) && hostShiftParameter == old(hostShiftParameter)
        invariant lossParameter == old(lossParameter) && parameterBounds == old(parameterBounds)
      {
        reconstructedEvents := reconstructedEvents[external[i] := Some([NO_EVENT])];
        assert external[..i + 1] == external[..i] + [external[i]];
        i := i + 1;
      }
      assert external[..i] == external;
    }

    /**
     * The event reconstruction of `calculateNodeLogLikelihood` for symbiont
     * node `self`: refresh stale rates, classify the children's hosts against
     * the node's host (and, when both descend from it, against the host's
     * first child `hostChild`), and record the events of the matching case.
     * `coexists` is the outcome of the height check; `finite` is false
     * exactly where the source returns negative infinity. The node's host is
     * a host node: its height is read before anything else. `hostChild` is a
     * child of that host, or NULL when the host is a leaf.
     */
    method ReconstructNode(hp: seq<int>, self: nat, selfHost: int, hostChild: int, child1Host: int, child2Host: int,
                           coexists: bool, case1: real, case2: real) returns (finite: bool)
      requires Acyclic(hp) && Ref(hp, selfHost) && Ref(hp, hostChild) && Ref(hp, child1Host) && Ref(hp, child2Host)
      requires selfHost != NULL
      requires hostChild != NULL ==> hp[hostChild] == selfHost
      requires hostChild == NULL ==> forall k :: 0 <= k < |hp| ==> hp[k] != selfHost
      requires self < |reconstructedEvents|
      modifies this
      ensures var rec := Reconstruction(coexists,
          Relation(hp, selfHost, child1Host).relationship, Relation(hp, selfHost, child2Host).relationship,
          Relation(hp, hostChild, child1Host).relationship, Relation(hp, hostChild, child2Host).relationship,
          case1, case2);
        finite == rec.Some?
        && reconstructedEvents == if rec.Some? then old(reconstructedEvents)[self := rec] else old(reconstructedEvents)
      ensures !dirty
      ensures old(dirty) ==> duplicationRate == duplicationParameter && hostShiftRate == hostShiftParameter && lossRate == lossParameter
      ensures old(dirty) ==> overallRate == duplicationRate + hostShiftRate + lossRate
      ensures !old(dirty) ==> duplicationRate == old(duplicationRate) && hostShiftRate == old(hostShiftRate) && lossRate == old(lossRate)
      ensures !old(dirty) ==> overallRate == old(overallRate)
      ensures units == old(units)
      ensures duplicationParameter == old(duplicationParameter) && hostShiftParameter == old(hostShiftParameter)
      ensures lossParameter == old(lossParameter) && parameterBounds == old(parameterBounds)
    {
      if dirty {
        UpdateVariables();
      }
      var child1Relationship := DetermineRelationship(hp, selfHost, child1Host);
      var child2Relationship := DetermineRelationship(hp, selfHost, child2Host);
      var r1, r2 := child1Relationship.relationship, child2Relationship.relationship;
      if !coexists {
        return false;
      }
      var events: seq<Event>;
      if r1 == Descendant && r2 == Descendant {
        var nr1 := DetermineRelationship(hp, hostChild, child1Host);
        var nr2 := DetermineRelationship(hp, hostChild, child2Host);
        var n1, n2 := nr1.relationship, nr2.relationship;
        if n1 == n2 || (n1 == Sister && n2 == Cousin) || (n2 == Sister && n1 == Cousin) {
          events := [Event(Duplication, case1), Event(NoEvent, case2)];
        } else {
          events := [NO_EVENT];
        }
      } else if r1 == Self && r2 == Self {
        events := [DUPLICATION];
      } else if r1 == Self && (r2 == Cousin || r2 == Sister) {
        events := [HOST_SHIFT];
      } else if r2 == Self && (r1 == Cousin || r1 == Sister) {
        events := [HOST_SHIFT];
      } else if (r1 == Cousin || r1 == Sister) && (r2 == Cousin || r2 == Sister) {
        events := [HOST_SHIFT];
      } else if r1 == Descendant && (r2 == Cousin || r2 == Sister) {
        events := [HOST_SHIFT];
      } else if (r1 == Cousin || r1 == Sister) && r2 == Descendant {
        events := [HOST_SHIFT];
      } else {
        return false;
      }
      reconstructedEvents := reconstructedEvents[self := Some(events)];
      finite := true;
    }
  }

  /**
   * A node can be explained exactly when it coexists with its host and the
   * host's relationships to the children's hosts pass the host-shift
   * operator's admissibility test.
   */
  lemma {:induction false} ReconstructionDefined(coexists: bool, r1: Relationship, r2: Relationship,
                              nr1: Relationship, nr2: Relationship, case1: real, case2: real)
    ensures Reconstruction(coexists, r1, r2, nr1, nr2, case1, case2).Some? <==> coexists && HS.Admissible({r1, r2})
  {
  }

  /** A host shift is recorded exactly when a child's host is a sister or cousin of the node's host. */
  lemma {:induction false} ReconstructionHostShift(coexists: bool, r1: Relationship, r2: Relationship,
                                nr1: Relationship, nr2: Relationship, case1: real, case2: real)
    requires Reconstruction(coexists, r1, r2, nr1, nr2, case1, case2).Some?
    ensures var events := Reconstruction(coexists, r1, r2, nr1, nr2, case1, case2).value;
      (events == [HOST_SHIFT]) <==> (Shifted(r1) || Shifted(r2))
  {
  }

  /**
   * Both children on the node's own host record a duplication; both on
   * descendants record either the plain cospeciation or the two weighted
   * explanations, depending only on how they sit below the host's first child.
   */
  lemma {:induction false} ReconstructionCospeciation(coexists: bool, r1: Relationship, r2: Relationship,
                                   nr1: Relationship, nr2: Relationship, case1: real, case2: real)
    requires coexists
    ensures var rec := Reconstruction(coexists, r1, r2, nr1, nr2, case1, case2);
      (r1 == Self && r2 == Self ==> rec == Some([DUPLICATION]))
      && (r1 == Descendant && r2 == Descendant ==>
            rec.Some? && (|rec.value| == 2 <==> nr1 == nr2 || {nr1, nr2} == {Sister, Cousin})
            && (|rec.value| != 2 ==> rec.value == [NO_EVENT]))
  {
    if r1 == Descendant && r2 == Descendant && {nr1, nr2} == {Sister, Cousin} {
      assert nr1 in {Sister, Cousin} && nr2 in {Sister, Cousin};
    }
  }

  /** Which relationship is the first child's and which the second's does not change whether a node can be explained. */
  lemma {:induction false} ReconstructionSymmetric(coexists: bool, r1: Relationship, r2: Relationship,
                                nr1: Relationship, nr2: Relationship, case1: real, case2: real)
    ensures Reconstruction(coexists, r1, r2, nr1, nr2, case1, case2).Some?
        <==> Reconstruction(coexists, r2, r1, nr2, nr1, case1, case2).Some?
  {
    ReconstructionDefined(coexists, r1, r2, nr1, nr2, case1, case2);
    ReconstructionDefined(coexists, r2, r1, nr2, nr1, case1, case2);
    assert {r1, r2} == {r2, r1};
  }
}
