/**
 * In-place edits of an element tree, expressed on values: an edit through a
 * reference to a node deep inside the tree is an edit of the whole tree at
 * that node's path. The lemmas say which other paths an edit leaves alone.
 */
module Edits {
  import opened Wrappers
  import opened Xml

  /** Neither path leads through the other's node. */
  predicate Disjoint(p: seq<nat>, q: seq<nat>)
  {
    !(p <= q) && !(q <= p)
  }

  lemma {:induction false} DisjointAt(p: seq<nat>, q: seq<nat>, k: nat)
    requires k < |p| && k < |q| && p[k] != q[k]
    ensures Disjoint(p, q)
  {
  }

  /** Following `p + q` is following `p`, then `q` from where `p` leads. */
  lemma {:induction false} AtConcat(n: Node, p: seq<nat>, q: seq<nat>)
    ensures At(n, p + q) == if At(n, p).Some? then At(At(n, p).value, q) else None
    decreases |p|
  {
    if p != [] {
      assert (p + q)[0] == p[0] && (p + q)[1..] == p[1..] + q;
      if n.Element? && p[0] < |n.children| {
        AtConcat(n.children[p[0]], p[1..], q);
      }
    } else {
      assert p + q == q;
    }
  }

  /** Following a path that starts at child `i`. */
  lemma {:induction false} AtChild(n: Node, i: nat, rest: seq<nat>)
    requires n.Element? && i < |n.children|
    ensures At(n, [i] + rest) == At(n.children[i], rest)
  {
    assert ([i] + rest)[1..] == rest;
  }

  /** A one- or two-step path reaches a child or grandchild exactly when the indices are in range. */
  lemma {:induction false} AtPair(n: Node, i: nat, j: nat)
    ensures At(n, [i]).Some? ==> n.Element? && i < |n.children| && At(n, [i]).value == n.children[i]
    ensures At(n, [i, j]).Some? ==>
      n.Element? && i < |n.children| && n.children[i].Element? && j < |n.children[i].children|
      && At(n, [i, j]).value == n.children[i].children[j]
    ensures n.Element? && i < |n.children| && n.children[i].Element? && j < |n.children[i].children| ==>
      At(n, [i, j]) == Some(n.children[i].children[j])
  {
    if n.Element? && i < |n.children| {
      AtChild(n, i, []);
      AtChild(n, i, [j]);
      assert [i] + [] == [i] && [i] + [j] == [i, j];
      if n.children[i].Element? && j < |n.children[i].children| {
        AtChild(n.children[i], j, []);
        assert [j] + [] == [j];
      }
    }
  }

  /** The tree with the node at `path` replaced by `m`. */
  function ReplaceAt(n: Node, path: seq<nat>, m: Node): (r: Node)
    requires At(n, path).Some?
    ensures At(r, path) == Some(m)
    ensures path != [] ==> r.Element? && r.tag == n.tag && r.attrs == n.attrs && |r.children| == |n.children|
    decreases |path|
  {
    if path == [] then m
    else
      var k := path[0];
      var r := n.(children := n.children[k := ReplaceAt(n.children[k], path[1..], m)]);
      assert r.children[k] == ReplaceAt(n.children[k], path[1..], m);
      r
  }

  /** Replacing a node by itself changes nothing. */
  lemma {:induction false} ReplaceSame(n: Node, path: seq<nat>)
    requires At(n, path).Some?
    ensures ReplaceAt(n, path, At(n, path).value) == n
    decreases |path|
  {
    if path != [] {
      var k := path[0];
      ReplaceSame(n.children[k], path[1..]);
      assert n.children[k := n.children[k]] == n.children;
    }
  }

  /** A second replacement at the same path overrides the first. */
  lemma {:induction false} ReplaceTwice(n: Node, path: seq<nat>, m1: Node, m2: Node)
    requires At(n, path).Some?
    ensures ReplaceAt(ReplaceAt(n, path, m1), path, m2) == ReplaceAt(n, path, m2)
    decreases |path|
  {
    if path != [] {
      var k := path[0];
      var r1 := ReplaceAt(n, path, m1);
      assert r1.children[k] == ReplaceAt(n.children[k], path[1..], m1);
      ReplaceTwice(n.children[k], path[1..], m1, m2);
    }
  }

  /** `container.append(x)` for each `x`, where the container is the node at `path`. */
  function AppendAt(n: Node, path: seq<nat>, extra: seq<Node>): (r: Node)
    requires At(n, path).Some? && At(n, path).value.Element?
    ensures At(r, path) == Some(AppendChildren(At(n, path).value, extra))
  {
    ReplaceAt(n, path, AppendChildren(At(n, path).value, extra))
  }

  /** `container.set(key, value)`, where the container is the node at `path`. */
  function SetAttrAt(n: Node, path: seq<nat>, key: string, value: string): (r: Node)
    requires At(n, path).Some? && At(n, path).value.Element?
    ensures At(r, path) == Some(SetAttr(At(n, path).value, key, value))
  {
    ReplaceAt(n, path, SetAttr(At(n, path).value, key, value))
  }

  /** A replacement leaves every node off its path where it was. */
  lemma {:induction false} AtReplaceDisjoint(n: Node, p: seq<nat>, m: Node, q: seq<nat>)
    requires At(n, p).Some? && Disjoint(p, q)
    ensures At(ReplaceAt(n, p, m), q) == At(n, q)
    decreases |p|
  {
    var r := ReplaceAt(n, p, m);
    assert p != [] && q != [];
    if p[0] == q[0] {
      assert p == [p[0]] + p[1..] && q == [q[0]] + q[1..];
      assert Disjoint(p[1..], q[1..]);
      AtReplaceDisjoint(n.children[p[0]], p[1..], m, q[1..]);
    } else if q[0] < |n.children| {
      assert r.children[q[0]] == n.children[q[0]];
    }
  }

  /**
   * A replacement by a node that keeps the old children as a prefix (an
   * attribute change, an append) leaves every existing node below it alone.
   */
  lemma {:induction false} AtReplaceBelow(n: Node, p: seq<nat>, m: Node, q: seq<nat>)
    requires At(n, p).Some? && At(n, p).value.Element? && m.Element?
    requires At(n, p).value.children <= m.children
    requires p < q && At(n, q).Some?
    ensures At(ReplaceAt(n, p, m), q) == At(n, q)
    decreases |p|
  {
    if p == [] {
      assert m.children[q[0]] == n.children[q[0]];
    } else {
      assert q == [q[0]] + q[1..];
      assert p[1..] < q[1..];
      AtReplaceBelow(n.children[p[0]], p[1..], m, q[1..]);
    }
  }

  /** A replacement keeps the tag, attributes and number of children of every node above it. */
  lemma {:induction false} AtReplaceAbove(n: Node, p: seq<nat>, m: Node, q: seq<nat>)
    requires At(n, p).Some? && q < p
    ensures At(ReplaceAt(n, p, m), q).Some? && At(n, q).Some?
    ensures var above, above' := At(n, q).value, At(ReplaceAt(n, p, m), q).value;
      above'.Element? && above.Element? && above'.tag == above.tag && above'.attrs == above.attrs
      && |above'.children| == |above.children|
    decreases |p|
  {
    if q != [] {
      assert p == [p[0]] + p[1..] && q == [q[0]] + q[1..];
      assert q[1..] < p[1..];
      AtReplaceAbove(n.children[p[0]], p[1..], m, q[1..]);
    }
  }

  /** What appending at `p` leaves alone. */
  lemma {:induction false} AppendAtFrame(n: Node, p: seq<nat>, extra: seq<Node>, q: seq<nat>)
    requires At(n, p).Some? && At(n, p).value.Element?
    requires Disjoint(p, q) || (p < q && At(n, q).Some?)
    ensures At(AppendAt(n, p, extra), q) == At(n, q)
  {
    if Disjoint(p, q) {
      AtReplaceDisjoint(n, p, AppendChildren(At(n, p).value, extra), q);
    } else {
      AtReplaceBelow(n, p, AppendChildren(At(n, p).value, extra), q);
    }
  }

  /** What setting an attribute at `p` leaves alone. */
  lemma {:induction false} SetAttrAtFrame(n: Node, p: seq<nat>, key: string, value: string, q: seq<nat>)
    requires At(n, p).Some? && At(n, p).value.Element?
    requires Disjoint(p, q) || (p < q && At(n, q).Some?)
    ensures At(SetAttrAt(n, p, key, value), q) == At(n, q)
  {
    if Disjoint(p, q) {
      AtReplaceDisjoint(n, p, SetAttr(At(n, p).value, key, value), q);
    } else {
      AtReplaceBelow(n, p, SetAttr(At(n, p).value, key, value), q);
    }
  }

  /** `insert(i, c)` on an element: `c` becomes child `i`, later children move up by one. */
  function InsertChild(n: Node, i: nat, c: Node): (r: Node)
    requires n.Element? && i <= |n.children|
    ensures r.Element? && r.tag == n.tag && r.attrs == n.attrs
    ensures |r.children| == |n.children| + 1 && r.children[i] == c
    ensures forall j :: 0 <= j < i ==> r.children[j] == n.children[j]
    ensures forall j :: i <= j < |n.children| ==> r.children[j + 1] == n.children[j]
  {
    n.(children := n.children[..i] + [c] + n.children[i..])
  }

  /** Where child `j` of a node ends up once `count` children are inserted at `i`. */
  function Shifted(j: nat, i: nat, count: nat): nat
  {
    if j < i then j else j + count
  }

  /** A path into a node once `count` children are inserted at `i`. */
  function ShiftPath(q: seq<nat>, i: nat, count: nat): seq<nat>
    requires q != []
  {
    [Shifted(q[0], i, count)] + q[1..]
  }

  /** Inserting children leaves every node below the top level where it was, up to the shift. */
  lemma {:induction false} AtInserted(n: Node, i: nat, items: seq<Node>, q: seq<nat>)
    requires n.Element? && i <= |n.children| && q != []
    ensures At(n.(children := n.children[..i] + items + n.children[i..]), ShiftPath(q, i, |items|)) == At(n, q)
  {
    var cs := n.children[..i] + items + n.children[i..];
    if q[0] < |n.children| {
      assert cs[Shifted(q[0], i, |items|)] == n.children[q[0]];
    }
  }
}
