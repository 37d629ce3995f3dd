/**
 * How two host-tree nodes are related, as `CophylogenyModel.Relationship`
 * classifies them: the same node, one above the other, children of one
 * parent, or anything else.
 */
module Relationships {
  import opened Trees

  datatype Relationship = Self | Descendant | Ancestor | Sister | Cousin

  /**
   * The kind of relationship and the generations between the two nodes.
   * `Descendant` reads "the relation is a descendant of self".
   */
  datatype NodalRelationship = NodalRelationship(relationship: Relationship, generations: int)

  /** The same relationship seen from the other node. */
  function Reciprocal(r: NodalRelationship): NodalRelationship
  {
    match r.relationship
    case Descendant => NodalRelationship(Ancestor, r.generations)
    case Ancestor => NodalRelationship(Descendant, r.generations)
    case _ => r
  }

  /**
   * What `determineRelationship(tree, self, relation)` answers, defined by
   * levels: a null node is a cousin of everything; `generations` counts the
   * nodes strictly between an ancestor and its descendant.
   */
  function Relation(p: seq<int>, self: int, relation: int): NodalRelationship
    requires Acyclic(p) && Ref(p, self) && Ref(p, relation)
  {
    if self == NULL || relation == NULL then NodalRelationship(Cousin, 0)
    else if self == relation then NodalRelationship(Self, 0)
    else if p[self] != NULL && p[relation] != NULL && p[self] == p[relation] then NodalRelationship(Sister, 0)
    else if Above(p, self, relation) then NodalRelationship(Descendant, Level(p, relation) - Level(p, self) - 1)
    else if Above(p, relation, self) then NodalRelationship(Ancestor, Level(p, self) - Level(p, relation) - 1)
    else NodalRelationship(Cousin, 0)
  }

  /**
   * The classification by walking parent chains: first up from `relation`
   * looking for `self`, then up from `self` looking for `relation`.
   */
  method DetermineRelationship(p: seq<int>, self: int, relation: int) returns (r: NodalRelationship)
    requires Acyclic(p) && Ref(p, self) && Ref(p, relation)
    ensures r == Relation(p, self, relation)
    ensures r.generations >= 0
  {
    if self == NULL || relation == NULL {
      return NodalRelationship(Cousin, 0);
    }
    if self == relation {
      return NodalRelationship(Self, 0);
    }
    if p[self] != NULL && p[relation] != NULL && p[self] == p[relation] {
      return NodalRelationship(Sister, 0);
    }
    var descendant := p[relation];
    var g := 0;
    while descendant != NULL
      invariant Ref(p, descendant) && descendant == Up(p, relation, g + 1)
      invariant forall k :: 1 <= k <= g ==> Up(p, relation, k) != self
      decreases Level(p, descendant)
    {
      if self == descendant {
        UpAbove(p, relation, g + 1);
        return NodalRelationship(Descendant, g);
      }
      LevelStep(p, descendant);
      UpNext(p, relation, g + 1);
      descendant := p[descendant];
      g := g + 1;
    }
    NotAboveAfterWalk(p, self, relation, g);
    var ancestor := p[self];
    g := 0;
    while ancestor != NULL
      invariant Ref(p, ancestor) && ancestor == Up(p, self, g + 1)
      invariant forall k :: 1 <= k <= g ==> Up(p, self, k) != relation
      decreases Level(p, ancestor)
    {
      if relation == ancestor {
        UpAbove(p, self, g + 1);
        return NodalRelationship(Ancestor, g);
      }
      LevelStep(p, ancestor);
      UpNext(p, self, g + 1);
      ancestor := p[ancestor];
      g := g + 1;
    }
    NotAboveAfterWalk(p, relation, self, g);
    return NodalRelationship(Cousin, 0);
  }

  /** Taking the reciprocal twice gives back the relationship. */
  lemma {:induction false} ReciprocalInvolution(r: NodalRelationship)
    ensures Reciprocal(Reciprocal(r)) == r
  {
  }

  /** Asking from the other node gives the reciprocal answer, for every pair of nodes. */
  lemma {:induction false} RelationSymmetric(p: seq<int>, a: int, b: int)
    requires Acyclic(p) && Ref(p, a) && Ref(p, b)
    ensures Relation(p, b, a) == Reciprocal(Relation(p, a, b))
  {
  }

  /**
   * A `Descendant` answer names a node exactly `generations + 1` parent steps
   * below `self`; an `Ancestor` answer one exactly that many steps above.
   */
  lemma {:induction false} RelationWalk(p: seq<int>, self: int, relation: int)
    requires Acyclic(p) && Ref(p, self) && Ref(p, relation)
    ensures var r := Relation(p, self, relation);
      r.generations >= 0
      && (r.relationship == Descendant ==> Up(p, relation, r.generations + 1) == self)
      && (r.relationship == Ancestor ==> Up(p, self, r.generations + 1) == relation)
      && (r.relationship == Self <==> self == relation && self != NULL)
  {
  }
}
