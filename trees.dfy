/**
 * Rooted trees as BEAST numbers them: nodes 0..n-1, each with the number of
 * its parent, and `NULL` (-1) standing for the missing parent of the root
 * and for a null node reference.
 */
module Trees {
  /** The null node reference, `RootedTree.NULL` and `CophylogenyLikelihood.NO_HOST`. */
  const NULL: int := -1

  /** A node number or NULL. */
  predicate Ref(p: seq<int>, x: int)
  {
    -1 <= x < |p|
  }

  /** Every parent entry is a node number or NULL. */
  predicate InRange(p: seq<int>)
  {
    forall x :: 0 <= x < |p| ==> Ref(p, p[x])
  }

  /** The node `k` steps above `x`; NULL once the walk has left the root. */
  function Up(p: seq<int>, x: int, k: nat): (r: int)
    requires InRange(p) && Ref(p, x)
    ensures Ref(p, r)
    ensures x == NULL ==> r == NULL
    decreases k
  {
    if k == 0 || x == NULL then x else Up(p, p[x], k - 1)
  }

  /** Walking up from every node reaches NULL within n steps: there is no cycle. */
  predicate Acyclic(p: seq<int>)
  {
    InRange(p) && forall x :: 0 <= x < |p| ==> Up(p, x, |p|) == NULL
  }

  function Steps(p: seq<int>, x: int, fuel: nat): (r: nat)
    requires InRange(p) && Ref(p, x)
    ensures r <= fuel
    decreases fuel
  {
    if x == NULL || fuel == 0 then 0 else 1 + Steps(p, p[x], fuel - 1)
  }

  /** The number of nodes from `x` up to the root, both included; 0 for NULL. */
  function Level(p: seq<int>, x: int): (r: nat)
    requires Acyclic(p) && Ref(p, x)
    ensures r <= |p|
  {
    Steps(p, x, |p|)
  }

  /** Extra fuel changes nothing once the walk has reached NULL. */
  lemma {:induction false} StepsStable(p: seq<int>, y: int, k: nat, k': nat)
    requires InRange(p) && Ref(p, y) && k <= k' && Up(p, y, k) == NULL
    ensures Steps(p, y, k') == Steps(p, y, k)
    decreases k
  {
    if y != NULL && k > 0 {
      StepsStable(p, p[y], k - 1, k' - 1);
    }
  }

  /** A node sits one level below its parent. */
  lemma {:induction false} LevelStep(p: seq<int>, x: int)
    requires Acyclic(p) && 0 <= x < |p|
    ensures Level(p, x) == Level(p, p[x]) + 1
  {
    var n := |p|;
    assert Up(p, p[x], n - 1) == Up(p, x, n) == NULL;
    StepsStable(p, p[x], n - 1, n);
  }

  /** `k` steps up from `x` lose `k` levels, and `Level(x)` steps reach NULL. */
  lemma {:induction false} LevelUp(p: seq<int>, x: int, k: nat)
    requires Acyclic(p) && Ref(p, x) && k <= Level(p, x)
    ensures Level(p, Up(p, x, k)) == Level(p, x) - k
    ensures k == Level(p, x) ==> Up(p, x, k) == NULL
    decreases k
  {
    if x == NULL {
    } else if k == 0 {
      if Level(p, x) == 0 {
        LevelStep(p, x);
      }
    } else {
      LevelStep(p, x);
      LevelUp(p, p[x], k - 1);
    }
  }

  /** Walking `a` steps and then `b` more is walking `a + b` steps. */
  lemma {:induction false} UpAdd(p: seq<int>, x: int, a: nat, b: nat)
    requires InRange(p) && Ref(p, x)
    ensures Up(p, x, a + b) == Up(p, Up(p, x, a), b)
    decreases a
  {
    if a > 0 && x != NULL {
      UpAdd(p, p[x], a - 1, b);
    }
  }

  /** One more step goes to the parent of where `k` steps lead. */
  lemma {:induction false} UpNext(p: seq<int>, x: int, k: nat)
    requires InRange(p) && Ref(p, x)
    ensures Up(p, x, k + 1) == var y := Up(p, x, k); if y == NULL then NULL else p[y]
  {
    UpAdd(p, x, k, 1);
  }

  /** `a` is a proper ancestor of `x`: it lies on the path from `x` to the root, above `x`. */
  predicate Above(p: seq<int>, a: int, x: int)
    requires Acyclic(p) && Ref(p, a) && Ref(p, x)
  {
    a != NULL && x != NULL && Level(p, a) < Level(p, x) && Up(p, x, Level(p, x) - Level(p, a)) == a
  }

  /** Any node reached by walking up at least one step is a proper ancestor, at that distance. */
  lemma {:induction false} UpAbove(p: seq<int>, x: int, k: nat)
    requires Acyclic(p) && 0 <= x < |p| && 1 <= k && Up(p, x, k) != NULL
    ensures k < Level(p, x) && Above(p, Up(p, x, k), x)
    ensures Level(p, x) - Level(p, Up(p, x, k)) == k
  {
    if k >= Level(p, x) {
      LevelUp(p, x, Level(p, x));
      UpAdd(p, x, Level(p, x), k - Level(p, x));
    }
    LevelUp(p, x, k);
  }

  /**
   * A walk from `x` that reached NULL after `g + 1` steps without meeting `a`
   * on the way shows that `a` is not a proper ancestor of `x`.
   */
  lemma {:induction false} NotAboveAfterWalk(p: seq<int>, a: int, x: int, g: nat)
    requires Acyclic(p) && Ref(p, a) && 0 <= x < |p| && a != NULL
    requires Up(p, x, g + 1) == NULL
    requires forall k :: 1 <= k <= g ==> Up(p, x, k) != a
    ensures !Above(p, a, x)
  {
    if Above(p, a, x) {
      var d := Level(p, x) - Level(p, a);
      if d > g {
        UpAdd(p, x, g + 1, d - g - 1);
      }
      assert false;
    }
  }
}
