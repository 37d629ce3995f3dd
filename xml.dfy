/**
 * The document model the setup script works on: an XML element tree as the
 * ElementTree API sees it, with the lookups and edits the script uses.
 */
module Xml {
  import opened Wrappers

  /** An element (tag, attributes, ordered children) or a comment. */
  datatype Node =
    | Element(tag: string, attrs: map<string, string>, children: seq<Node>)
    | Comment(text: string)

  predicate Tagged(n: Node, tag: string)
  {
    n.Element? && n.tag == tag
  }

  /** `find(tag)`: the index of the first child element carrying `tag`. */
  function Find(cs: seq<Node>, tag: string): (r: Option<nat>)
    ensures r.Some? ==> r.value < |cs| && Tagged(cs[r.value], tag)
    ensures r.Some? ==> forall k :: 0 <= k < r.value ==> !Tagged(cs[k], tag)
    ensures r.None? <==> forall k :: 0 <= k < |cs| ==> !Tagged(cs[k], tag)
  {
    if |cs| == 0 then None
    else if Tagged(cs[0], tag) then Some(0)
    else match Find(cs[1..], tag)
      case None => None
      case Some(k) => Some(k + 1)
  }

  /** The first node carrying `tag` is what `find` returns. */
  lemma {:induction false} FindFirst(cs: seq<Node>, tag: string, k: nat)
    requires k < |cs| && Tagged(cs[k], tag) && forall j :: 0 <= j < k ==> !Tagged(cs[j], tag)
    ensures Find(cs, tag) == Some(k)
  {
  }

  /** `findall(tag)`: the indices of all child elements carrying `tag`, in document order. */
  function FindAll(cs: seq<Node>, tag: string): (r: seq<nat>)
    ensures forall k :: k in r ==> k < |cs| && Tagged(cs[k], tag)
    ensures forall k :: 0 <= k < |cs| && Tagged(cs[k], tag) ==> k in r
    ensures forall a, b :: 0 <= a < b < |r| ==> r[a] < r[b]
  {
    if |cs| == 0 then []
    else
      var last := |cs| - 1;
      var front := FindAll(cs[..last], tag);
      assert forall a :: 0 <= a < |front| ==> front[a] in front && front[a] < last;
      front + (if Tagged(cs[last], tag) then [last] else [])
  }

  /** `iterfind('*')`: the element children, in order; comments are skipped. */
  function Elements(cs: seq<Node>): (r: seq<Node>)
  {
    if |cs| == 0 then []
    else
      var last := |cs| - 1;
      Elements(cs[..last]) + (if cs[last].Element? then [cs[last]] else [])
  }

  /** `iterfind('*')` yields only element children of the list, and every child when there is no comment. */
  lemma {:induction false} ElementsMembers(cs: seq<Node>)
    ensures forall n :: n in Elements(cs) ==> n in cs && n.Element?
    ensures (forall n :: n in cs ==> n.Element?) ==> Elements(cs) == cs
    decreases |cs|
  {
    if |cs| > 0 {
      var last := |cs| - 1;
      ElementsMembers(cs[..last]);
      assert cs == cs[..last] + [cs[last]];
      forall n | n in cs[..last]
        ensures n in cs
      {
      }
    }
  }

  /** No comment among the nodes, as the parser leaves them: it drops comments. */
  predicate CommentFree(cs: seq<Node>)
  {
    forall k :: 0 <= k < |cs| ==> cs[k].Element?
  }

  /** Filtering never lengthens, and keeps every node exactly when there is no comment. */
  lemma {:induction false} ElementsLength(cs: seq<Node>)
    ensures |Elements(cs)| <= |cs|
    ensures |Elements(cs)| == |cs| <==> CommentFree(cs)
  {
    ElementsShorter(cs);
    if CommentFree(cs) {
      assert forall n :: n in cs ==> n.Element?;
      ElementsMembers(cs);
    }
  }

  lemma {:induction false} ElementsShorter(cs: seq<Node>)
    ensures |Elements(cs)| <= |cs|
    ensures |Elements(cs)| == |cs| ==> CommentFree(cs)
    decreases |cs|
  {
    if |cs| > 0 {
      var last := |cs| - 1;
      ElementsShorter(cs[..last]);
      if |Elements(cs)| == |cs| {
        LastKept(cs);
      }
    }
  }

  /** When the filter keeps every node of the front and the last one, no node is a comment. */
  lemma {:induction false} LastKept(cs: seq<Node>)
    requires |cs| > 0 && |Elements(cs)| == |cs|
    requires |Elements(cs[..|cs| - 1])| <= |cs| - 1
    requires |Elements(cs[..|cs| - 1])| == |cs| - 1 ==> CommentFree(cs[..|cs| - 1])
    ensures CommentFree(cs)
  {
    var last := |cs| - 1;
    ElementsStep(cs, last);
    assert cs[..last + 1] == cs;
    assert cs[last].Element? && CommentFree(cs[..last]);
    forall k | 0 <= k < |cs|
      ensures cs[k].Element?
    {
      if k < last {
        assert cs[..last][k] == cs[k];
      }
    }
  }

  /** Counting one more node counts one more element exactly when it is one. */
  lemma {:induction false} ElementsStep(cs: seq<Node>, k: nat)
    requires k < |cs|
    ensures |Elements(cs[..k + 1])| == |Elements(cs[..k])| + if cs[k].Element? then 1 else 0
  {
    assert cs[..k + 1][..k] == cs[..k];
  }

  /** The children left once those at the positions in `drop` are removed, in their order. */
  function Without(cs: seq<Node>, drop: set<nat>): (r: seq<Node>)
    ensures |r| <= |cs|
    ensures forall k :: 0 <= k < |cs| && k !in drop ==> cs[k] in r
    ensures forall n :: n in r ==> n in cs
  {
    if |cs| == 0 then []
    else
      var last := |cs| - 1;
      var front := Without(cs[..last], drop);
      assert forall k :: 0 <= k < last ==> cs[..last][k] == cs[k];
      front + (if last in drop then [] else [cs[last]])
  }

  /** Positions past the end make no difference. */
  lemma {:induction false} WithoutBeyond(cs: seq<Node>, drop: set<nat>, k: nat)
    requires k >= |cs|
    ensures Without(cs, drop - {k}) == Without(cs, drop)
    decreases |cs|
  {
    if |cs| > 0 {
      WithoutBeyond(cs[..|cs| - 1], drop, k);
    }
  }

  /** Removing element children removes exactly that many elements. */
  lemma {:induction false} ElementsWithout(cs: seq<Node>, drop: set<nat>)
    requires forall k :: k in drop ==> k < |cs| && cs[k].Element?
    ensures |Elements(Without(cs, drop))| + |drop| == |Elements(cs)|
    decreases |cs|
  {
    if |cs| == 0 {
      assert drop == {} by {
        assert forall k :: k !in drop;
      }
    } else {
      var last := |cs| - 1;
      DropFront(cs, drop);
      ElementsWithout(cs[..last], drop - {last});
      WithoutLast(cs, drop);
      CardRemove(drop, last);
    }
  }

  lemma {:induction false} CardRemove(drop: set<nat>, k: nat)
    ensures |drop| == |drop - {k}| + if k in drop then 1 else 0
  {
    if k !in drop {
      assert drop - {k} == drop;
    }
  }

  lemma {:induction false} DropFront(cs: seq<Node>, drop: set<nat>)
    requires |cs| > 0 && forall k :: k in drop ==> k < |cs| && cs[k].Element?
    ensures var last := |cs| - 1;
      (forall k :: k in drop - {last} ==> k < |cs[..last]| && cs[..last][k].Element?)
      && (last in drop ==> cs[last].Element?)
  {
  }

  /** One step of the count: the last child is kept or removed. */
  lemma {:induction false} WithoutLast(cs: seq<Node>, drop: set<nat>)
    requires |cs| > 0
    ensures var last := |cs| - 1; var e := if cs[last].Element? then 1 else 0;
      |Elements(cs)| == |Elements(cs[..last])| + e
      && |Elements(Without(cs, drop))| == |Elements(Without(cs[..last], drop - {last}))| + (if last in drop then 0 else e)
  {
    var last := |cs| - 1;
    var front := cs[..last];
    WithoutBeyond(front, drop, last);
    var tail: seq<Node> := if last in drop then [] else [cs[last]];
    assert Without(cs, drop) == Without(front, drop - {last}) + tail;
    ElementsAppend(Without(front, drop - {last}), tail);
    ElementsAppend(front, [cs[last]]);
    SplitLast(cs);
  }

  lemma {:induction false} SplitLast<T>(s: seq<T>)
    requires |s| > 0
    ensures s[..|s| - 1] + [s[|s| - 1]] == s
  {
  }

  lemma {:induction false} ElementsAppend(xs: seq<Node>, ys: seq<Node>)
    ensures Elements(xs + ys) == Elements(xs) + Elements(ys)
    decreases |ys|
  {
    if |ys| > 0 {
      var last := |ys| - 1;
      assert (xs + ys)[..|xs + ys| - 1] == xs + ys[..last];
      ElementsAppend(xs, ys[..last]);
    } else {
      assert xs + ys == xs;
    }
  }

  /** Append nodes after the existing children of an element. */
  function AppendChildren(n: Node, extra: seq<Node>): (r: Node)
    requires n.Element?
    ensures r.Element? && r.tag == n.tag && r.attrs == n.attrs
    ensures r.children == n.children + extra
  {
    n.(children := n.children + extra)
  }

  /** `set(key, value)` on an element. */
  function SetAttr(n: Node, key: string, value: string): (r: Node)
    requires n.Element?
    ensures r.Element? && r.tag == n.tag && r.children == n.children
    ensures r.attrs == n.attrs[key := value]
  {
    n.(attrs := n.attrs[key := value])
  }

  /** The node reached from `n` by following child indices. */
  function At(n: Node, path: seq<nat>): Option<Node>
    decreases |path|
  {
    if path == [] then Some(n)
    else if n.Element? && path[0] < |n.children| then At(n.children[path[0]], path[1..])
    else None
  }

  /** The values of every `id` attribute in a subtree. */
  function Ids(n: Node): set<string>
    decreases n, 1
  {
    match n
    case Comment(_) => {}
    case Element(_, attrs, cs) => (if "id" in attrs then {attrs["id"]} else {}) + IdsOf(cs)
  }

  function IdsOf(cs: seq<Node>): set<string>
    decreases cs, 0
  {
    if cs == [] then {} else Ids(cs[0]) + IdsOf(cs[1..])
  }

  /** The values of every `idref` attribute in a subtree. */
  function Idrefs(n: Node): set<string>
    decreases n, 1
  {
    match n
    case Comment(_) => {}
    case Element(_, attrs, cs) => (if "idref" in attrs then {attrs["idref"]} else {}) + IdrefsOf(cs)
  }

  function IdrefsOf(cs: seq<Node>): set<string>
    decreases cs, 0
  {
    if cs == [] then {} else Idrefs(cs[0]) + IdrefsOf(cs[1..])
  }
}
