/**
 * The coevaluation tool: it compares a symbiont tree's host assignments with
 * those of a simulated copy, after translating the simulated host tree's
 * `nodeRef`s into the real host tree's `nodeRef`s clade by clade, and reports
 * the share of symbiont clades whose host agrees.
 *
 * A tree is its node structure together with the integer attribute the tool
 * reads at each node (`nodeRef` for host trees, `host.nodeRef` for symbiont
 * trees), indexed by node number; the attribute array has one entry per node.
 * Leaf taxa are indices into the taxon list in force when the tree is
 * processed: the host tree's list for both host trees, the symbiont tree's
 * list for both symbiont trees.
 */
module Coevaluate {
  import opened Wrappers
  import opened Clades

  datatype Tree = Tree(root: Node, attr: seq<int>)

  /** What the JVM raises when a lookup misses. */
  datatype Error = NullPointer | IndexOutOfBounds

  /** Every node of `t` has an attribute. */
  predicate Labelled(t: Node, attr: seq<int>)
    decreases t
  {
    t.number < |attr| && forall i :: 0 <= i < |t.children| ==> Labelled(t.children[i], attr)
  }

  /** The (attribute, clade) pair of every node of `t`, in post-order. */
  function Entries(t: Node, attr: seq<int>): (es: seq<(int, Clade)>)
    requires Labelled(t, attr)
    ensures |es| >= 1 && es[|es| - 1] == (attr[t.number], CladeOf(t))
    decreases t, 1
  {
    EntriesUpTo(t, attr, |t.children|) + [(attr[t.number], CladeOf(t))]
  }

  function EntriesUpTo(t: Node, attr: seq<int>, k: nat): (es: seq<(int, Clade)>)
    requires k <= |t.children| && Labelled(t, attr)
    decreases t, 0, k
  {
    if k == 0 then [] else EntriesUpTo(t, attr, k - 1) + Entries(t.children[k - 1], attr)
  }

  /** The same pairs with key and value exchanged. */
  function Swapped(es: seq<(int, Clade)>): (fs: seq<(Clade, int)>)
  {
    seq(|es|, i requires 0 <= i < |es| => (es[i].1, es[i].0))
  }

  lemma {:induction false} SwappedAppend(xs: seq<(int, Clade)>, ys: seq<(int, Clade)>)
    ensures Swapped(xs + ys) == Swapped(xs) + Swapped(ys)
  {
  }

  /** `map.put(k, v)` for every pair in order: a later put overwrites an earlier one. */
  function PutAll<K, V>(m: map<K, V>, es: seq<(K, V)>): (r: map<K, V>)
    decreases |es|
  {
    if |es| == 0 then m else PutAll(m, es[..|es| - 1])[es[|es| - 1].0 := es[|es| - 1].1]
  }

  /** The puts into a map that may be null: a null map receives nothing. */
  function PutEach<K, V>(m: Option<map<K, V>>, es: seq<(K, V)>): (r: Option<map<K, V>>)
    ensures r.Some? <==> m.Some?
  {
    if m.Some? then Some(PutAll(m.value, es)) else None
  }

  lemma {:induction false} PutAllAppend<K, V>(m: map<K, V>, xs: seq<(K, V)>, ys: seq<(K, V)>)
    ensures PutAll(m, xs + ys) == PutAll(PutAll(m, xs), ys)
    decreases |ys|
  {
    if |ys| == 0 {
      assert xs + ys == xs;
    } else {
      var init := ys[..|ys| - 1];
      assert (xs + ys)[..|xs + ys| - 1] == xs + init;
      PutAllAppend(m, xs, init);
    }
  }

  /**
   * The value a key ends up with is the one of its last put; a key that is
   * never put keeps whatever the map had (or stays absent).
   */
  lemma {:induction false} PutAllLast<K, V>(m: map<K, V>, es: seq<(K, V)>, k: nat)
    requires k < |es| && forall j :: k < j < |es| ==> es[j].0 != es[k].0
    ensures es[k].0 in PutAll(m, es) && PutAll(m, es)[es[k].0] == es[k].1
    decreases |es|
  {
    if k < |es| - 1 {
      PutAllLast(m, es[..|es| - 1], k);
    }
  }

  lemma {:induction false} PutAllMissing<K, V>(m: map<K, V>, es: seq<(K, V)>, key: K)
    requires forall j :: 0 <= j < |es| ==> es[j].0 != key
    ensures key in PutAll(m, es) <==> key in m
    ensures key in m ==> PutAll(m, es)[key] == m[key]
    decreases |es|
  {
    if |es| > 0 {
      PutAllMissing(m, es[..|es| - 1], key);
    }
  }

  /** The keys after the puts are the old keys and the keys put. */
  lemma {:induction false} PutAllKeys<K, V>(m: map<K, V>, es: seq<(K, V)>, key: K)
    ensures key in PutAll(m, es) <==> key in m || exists j :: 0 <= j < |es| && es[j].0 == key
    decreases |es|
  {
    if |es| > 0 {
      var init := es[..|es| - 1];
      PutAllKeys(m, init, key);
      if exists j :: 0 <= j < |init| && init[j].0 == key {
        var j :| 0 <= j < |init| && init[j].0 == key;
        assert es[j].0 == key;
      }
      if exists j :: 0 <= j < |es| && es[j].0 == key {
        var j :| 0 <= j < |es| && es[j].0 == key;
        if j < |init| {
          assert init[j].0 == key;
        }
      }
    }
  }

  /** The clade-to-attribute map `treeToBitSet` fills for a whole tree into an empty map. */
  function ByClade(tr: Tree): (m: map<Clade, int>)
    requires Labelled(tr.root, tr.attr)
  {
    PutAll(map[], Swapped(Entries(tr.root, tr.attr)))
  }

  /** The attribute-to-clade map `treeToBitSet` fills for a whole tree into an empty map. */
  function ByRef(tr: Tree): (m: map<int, Clade>)
    requires Labelled(tr.root, tr.attr)
  {
    PutAll(map[], Entries(tr.root, tr.attr))
  }

  /**
   * The root is put last, so its clade is always mapped to the root's
   * attribute and the root's attribute to the whole tree's clade, whatever
   * collisions happened below.
   */
  lemma {:induction false} RootPutLast(tr: Tree)
    requires Labelled(tr.root, tr.attr)
    ensures CladeOf(tr.root) in ByClade(tr) && ByClade(tr)[CladeOf(tr.root)] == tr.attr[tr.root.number]
    ensures tr.attr[tr.root.number] in ByRef(tr) && ByRef(tr)[tr.attr[tr.root.number]] == CladeOf(tr.root)
  {
    var es := Entries(tr.root, tr.attr);
    var fs := Swapped(es);
    assert fs[|fs| - 1] == (CladeOf(tr.root), tr.attr[tr.root.number]);
    PutAllLast(map[], fs, |fs| - 1);
    PutAllLast(map[], es, |es| - 1);
  }

  /** No two nodes carry the same attribute value. */
  predicate DistinctRefs(es: seq<(int, Clade)>)
  {
    forall i, j :: 0 <= i < j < |es| ==> es[i].0 != es[j].0
  }

  /** No two nodes have the same clade (there are no unary nodes). */
  predicate DistinctClades(es: seq<(int, Clade)>)
  {
    forall i, j :: 0 <= i < j < |es| ==> es[i].1 != es[j].1
  }

  /**
   * With distinct attributes and distinct clades nothing is overwritten: the
   * two maps are inverse to each other on the tree's nodes.
   */
  lemma {:induction false} NodeLookup(es: seq<(int, Clade)>, k: nat)
    requires k < |es|
    ensures DistinctRefs(es) ==> es[k].0 in PutAll(map[], es) && PutAll(map[], es)[es[k].0] == es[k].1
    ensures DistinctClades(es) ==> es[k].1 in PutAll(map[], Swapped(es)) && PutAll(map[], Swapped(es))[es[k].1] == es[k].0
  {
    if DistinctRefs(es) {
      PutAllLast(map[], es, k);
    }
    if DistinctClades(es) {
      PutAllLast(map[], Swapped(es), k);
    }
  }

  lemma {:induction false} EntriesStep(t: Node, attr: seq<int>, i: nat)
    requires i < |t.children| && Labelled(t, attr)
    ensures EntriesUpTo(t, attr, i + 1) == EntriesUpTo(t, attr, i) + Entries(t.children[i], attr)
  {
  }

  /**
   * `treeToBitSet`: the clade of `t`, with every node's (attribute, clade)
   * put into `m1` and every (clade, attribute) put into `m2`, children before
   * parents, either map being possibly null.
   */
  method TreeToBitSet(t: Node, attr: seq<int>, m1: Option<map<int, Clade>>, m2: Option<map<Clade, int>>)
    returns (b: Clade, r1: Option<map<int, Clade>>, r2: Option<map<Clade, int>>)
    requires Labelled(t, attr)
    ensures b == CladeOf(t)
    ensures r1 == PutEach(m1, Entries(t, attr))
    ensures r2 == PutEach(m2, Swapped(Entries(t, attr)))
    decreases t, 1
  {
    r1, r2 := m1, m2;
    if |t.children| == 0 {
      b := {t.taxon};
    } else {
      b := {};
      var i := 0;
      while i < |t.children|
        invariant 0 <= i <= |t.children|
        invariant b == CladeUpTo(t, i)
        invariant r1 == PutEach(m1, EntriesUpTo(t, attr, i))
        invariant r2 == PutEach(m2, Swapped(EntriesUpTo(t, attr, i)))
      {
        var c;
        c, r1, r2 := ChildToBitSet(t, i, attr, m1, m2, r1, r2);
        b := b + c;
        i := i + 1;
      }
    }
    var a := attr[t.number];
    ghost var before := EntriesUpTo(t, attr, |t.children|);
    assert Entries(t, attr) == before + [(a, b)];
    assert Swapped(Entries(t, attr)) == Swapped(before) + [(b, a)];
    if r1.Some? {
      PutAllAppend(m1.value, before, [(a, b)]);
      r1 := Some(r1.value[a := b]);
    }
    if r2.Some? {
      PutAllAppend(m2.value, Swapped(before), [(b, a)]);
      r2 := Some(r2.value[b := a]);
    }
  }

  /** One iteration of the loop over the children in `treeToBitSet`. */
  method ChildToBitSet(t: Node, i: nat, attr: seq<int>, m1: Option<map<int, Clade>>, m2: Option<map<Clade, int>>,
                       s1: Option<map<int, Clade>>, s2: Option<map<Clade, int>>)
    returns (c: Clade, r1: Option<map<int, Clade>>, r2: Option<map<Clade, int>>)
    requires i < |t.children| && Labelled(t, attr)
    requires s1 == PutEach(m1, EntriesUpTo(t, attr, i))
    requires s2 == PutEach(m2, Swapped(EntriesUpTo(t, attr, i)))
    ensures c == CladeOf(t.children[i])
    ensures r1 == PutEach(m1, EntriesUpTo(t, attr, i + 1))
    ensures r2 == PutEach(m2, Swapped(EntriesUpTo(t, attr, i + 1)))
    decreases t, 0
  {
    var child := t.children[i];
    c, r1, r2 := TreeToBitSet(child, attr, s1, s2);
    var before := EntriesUpTo(t, attr, i);
    var added := Entries(child, attr);
    EntriesStep(t, attr, i);
    SwappedAppend(before, added);
    if m1.Some? {
      PutAllAppend(m1.value, before, added);
    }
    if m2.Some? {
      PutAllAppend(m2.value, Swapped(before), Swapped(added));
    }
  }

  // ---------------------------------------------------------------------
  // Translating simulated host nodeRefs

  /** Every simulated `nodeRef` below `n` names a clade that the host tree has. */
  predicate Translatable(cladeToNodeRef: map<Clade, int>, simulated: map<int, Clade>, n: nat)
  {
    forall i :: 0 <= i < n ==> i in simulated && simulated[i] in cladeToNodeRef
  }

  /** `nodeRefToNodeRef`: the host `nodeRef` of the clade with simulated `nodeRef` `i`. */
  function Table(cladeToNodeRef: map<Clade, int>, simulated: map<int, Clade>, n: nat): (table: seq<int>)
    requires Translatable(cladeToNodeRef, simulated, n)
  {
    seq(n, i requires 0 <= i < n && Translatable(cladeToNodeRef, simulated, n) => cladeToNodeRef[simulated[i]])
  }

  /**
   * The loop filling `nodeRefToNodeRef`: it fails (unboxing a null) as soon
   * as a simulated `nodeRef` is missing or names a clade the host lacks.
   */
  method TranslationTable(cladeToNodeRef: map<Clade, int>, simulated: map<int, Clade>, n: nat)
    returns (r: Result<seq<int>, Error>)
    ensures r.Success? <==> Translatable(cladeToNodeRef, simulated, n)
    ensures r.Success? ==>
      |r.value| == n && forall i :: 0 <= i < n ==> r.value[i] == cladeToNodeRef[simulated[i]]
    ensures r.Failure? ==> r.error == NullPointer
  {
    var table := new int[n];
    var i := 0;
    while i < n
      invariant 0 <= i <= n
      invariant forall j :: 0 <= j < i ==>
        j in simulated && simulated[j] in cladeToNodeRef && table[j] == cladeToNodeRef[simulated[j]]
    {
      if i !in simulated || simulated[i] !in cladeToNodeRef {
        return Failure(NullPointer);
      }
      table[i] := cladeToNodeRef[simulated[i]];
      i := i + 1;
    }
    return Success(table[..]);
  }

  /**
   * The translation means what its comment says: if the simulated host node
   * at position `j` of the post-order has `nodeRef` `i` and the same clade as
   * the host node at position `k`, and neither tree repeats a `nodeRef` or a
   * clade, then entry `i` of the table is that host node's `nodeRef`.
   */
  lemma {:induction false} TableTranslatesClade(host: Tree, simulated: Tree, j: nat, k: nat)
    requires Labelled(host.root, host.attr) && Labelled(simulated.root, simulated.attr)
    requires DistinctClades(Entries(host.root, host.attr)) && DistinctRefs(Entries(simulated.root, simulated.attr))
    requires Translatable(ByClade(host), ByRef(simulated), |simulated.attr|)
    requires j < |Entries(simulated.root, simulated.attr)| && k < |Entries(host.root, host.attr)|
    requires 0 <= Entries(simulated.root, simulated.attr)[j].0 < |simulated.attr|
    requires Entries(simulated.root, simulated.attr)[j].1 == Entries(host.root, host.attr)[k].1
    ensures Table(ByClade(host), ByRef(simulated), |simulated.attr|)[Entries(simulated.root, simulated.attr)[j].0]
      == Entries(host.root, host.attr)[k].0
  {
    NodeLookup(Entries(simulated.root, simulated.attr), j);
    NodeLookup(Entries(host.root, host.attr), k);
  }

  // ---------------------------------------------------------------------
  // Counting agreeing symbiont clades

  /** The simulated symbiont has the clade and its host `nodeRef` indexes the table. */
  predicate Comparable(c: Clade, simulatedMap: map<Clade, int>, table: seq<int>)
  {
    c in simulatedMap && 0 <= simulatedMap[c] < |table|
  }

  /** Clades of `among` whose host agrees with the translated simulated host. */
  function Agreeing(among: set<Clade>, symbiontMap: map<Clade, int>, simulatedMap: map<Clade, int>, table: seq<int>): (s: set<Clade>)
    ensures s <= among
  {
    set c | c in among && c in symbiontMap && Comparable(c, simulatedMap, table) &&
      symbiontMap[c] == table[simulatedMap[c]]
  }

  lemma {:induction false} SubsetCard(a: set<Clade>, b: set<Clade>)
    requires a <= b
    ensures |a| <= |b|
  {
    assert b == a + (b - a);
  }

  lemma {:induction false} AgreeingStep(done: set<Clade>, c: Clade, symbiontMap: map<Clade, int>, simulatedMap: map<Clade, int>, table: seq<int>)
    requires c !in done && c in symbiontMap && Comparable(c, simulatedMap, table)
    ensures |Agreeing(done + {c}, symbiontMap, simulatedMap, table)| ==
      |Agreeing(done, symbiontMap, simulatedMap, table)| + (if symbiontMap[c] == table[simulatedMap[c]] then 1 else 0)
  {
    var before := Agreeing(done, symbiontMap, simulatedMap, table);
    if symbiontMap[c] == table[simulatedMap[c]] {
      assert Agreeing(done + {c}, symbiontMap, simulatedMap, table) == before + {c};
    } else {
      assert Agreeing(done + {c}, symbiontMap, simulatedMap, table) == before;
    }
  }

  /**
   * The `correct` loop: the number of symbiont clades whose host `nodeRef`
   * equals the translated host of the same clade in the simulated symbiont
   * tree. It fails when some symbiont clade is missing from the simulated
   * tree (a null unboxed) or its host is outside the table.
   */
  method CountCorrect(symbiontMap: map<Clade, int>, simulatedMap: map<Clade, int>, table: seq<int>)
    returns (r: Result<nat, Error>)
    ensures r.Success? <==> forall c :: c in symbiontMap ==> Comparable(c, simulatedMap, table)
    ensures r.Success? ==> r.value == |Agreeing(symbiontMap.Keys, symbiontMap, simulatedMap, table)|
    ensures r.Success? ==> r.value <= |symbiontMap|
  {
    var remaining := symbiontMap.Keys;
    var correct := 0;
    while remaining != {}
      invariant remaining <= symbiontMap.Keys
      invariant forall c :: c in symbiontMap.Keys - remaining ==> Comparable(c, simulatedMap, table)
      invariant correct == |Agreeing(symbiontMap.Keys - remaining, symbiontMap, simulatedMap, table)|
      decreases |remaining|
    {
      var bs :| bs in remaining;
      if bs !in simulatedMap {
        return Failure(NullPointer);
      }
      if !(0 <= simulatedMap[bs] < |table|) {
        return Failure(IndexOutOfBounds);
      }
      AgreeingStep(symbiontMap.Keys - remaining, bs, symbiontMap, simulatedMap, table);
      assert (symbiontMap.Keys - remaining) + {bs} == symbiontMap.Keys - (remaining - {bs});
      if symbiontMap[bs] == table[simulatedMap[bs]] {
        correct := correct + 1;
      }
      remaining := remaining - {bs};
    }
    assert symbiontMap.Keys - remaining == symbiontMap.Keys;
    SubsetCard(Agreeing(symbiontMap.Keys, symbiontMap, simulatedMap, table), symbiontMap.Keys);
    r := Success(correct);
  }

  // ---------------------------------------------------------------------
  // The whole evaluation

  /** The counts the report is made of. */
  datatype Score = Score(correct: nat, symbiontClades: nat, simulatedHostNodes: nat)

  predicate Readable(tr: Tree)
  {
    Labelled(tr.root, tr.attr)
  }

  /**
   * The evaluation of the four trees, up to the printed percentage: the host
   * clade map, the simulated host's `nodeRef` map, the translation table, the
   * two symbiont clade maps and the agreeing count.
   */
  method Evaluate(host: Tree, hostSimulated: Tree, symbiont: Tree, symbiontSimulated: Tree)
    returns (r: Result<Score, Error>)
    requires Readable(host) && Readable(hostSimulated) && Readable(symbiont) && Readable(symbiontSimulated)
    ensures r.Success? <==>
      Translatable(ByClade(host), ByRef(hostSimulated), |hostSimulated.attr|) &&
      forall c :: c in ByClade(symbiont) ==>
        Comparable(c, ByClade(symbiontSimulated), Table(ByClade(host), ByRef(hostSimulated), |hostSimulated.attr|))
    ensures r.Success? ==>
      r.value.correct == |Agreeing(ByClade(symbiont).Keys, ByClade(symbiont), ByClade(symbiontSimulated),
                                   Table(ByClade(host), ByRef(hostSimulated), |hostSimulated.attr|))| &&
      r.value.symbiontClades == |ByClade(symbiont)| &&
      r.value.simulatedHostNodes == |hostSimulated.attr|
    ensures r.Success? ==> r.value.correct <= r.value.symbiontClades && r.value.symbiontClades >= 1
  {
    var _, _, cladeToNodeRef := TreeToBitSet(host.root, host.attr, None, Some(map[]));
    var _, temp, _ := TreeToBitSet(hostSimulated.root, hostSimulated.attr, Some(map[]), None);
    var translated := TranslationTable(cladeToNodeRef.value, temp.value, |hostSimulated.attr|);
    if translated.Failure? {
      return Failure(translated.error);
    }
    var table := translated.value;
    assert table == Table(ByClade(host), ByRef(hostSimulated), |hostSimulated.attr|);
    var _, _, symbiontMap := TreeToBitSet(symbiont.root, symbiont.attr, None, Some(map[]));
    var _, _, symbiontSimulatedMap := TreeToBitSet(symbiontSimulated.root, symbiontSimulated.attr, None, Some(map[]));
    assert symbiontMap.value == ByClade(symbiont);
    assert symbiontSimulatedMap.value == ByClade(symbiontSimulated);
    var correct := CountCorrect(symbiontMap.value, symbiontSimulatedMap.value, table);
    if correct.Failure? {
      return Failure(correct.error);
    }
    RootPutLast(symbiont);
    r := Success(Score(correct.value, |symbiontMap.value|, |hostSimulated.attr|));
  }

  /**
   * The printed figure as written: the agreeing count over the node count of
   * the tree last read into the host variable, the simulated host tree.
   */
  function PercentAsWritten(s: Score): (p: real)
    requires s.simulatedHostNodes > 0
  {
    s.correct as real / s.simulatedHostNodes as real * 100.0
  }

  /** The intended figure: the agreeing count over the symbiont clades compared. */
  function Percent(s: Score): (p: real)
    requires s.symbiontClades > 0
  {
    s.correct as real / s.symbiontClades as real * 100.0
  }

  /** The intended figure is a percentage. */
  lemma {:induction false} PercentBounded(s: Score)
    requires 0 < s.symbiontClades && s.correct <= s.symbiontClades
    ensures 0.0 <= Percent(s) <= 100.0
    ensures Percent(s) == 100.0 <==> s.correct == s.symbiontClades
  {
    Ratio(s.correct as real, s.symbiontClades as real);
  }

  /** A part over a positive whole is between 0 and 1, and 1 exactly when the part is the whole. */
  lemma {:induction false} Ratio(c: real, n: real)
    requires 0.0 <= c <= n && 0.0 < n
    ensures 0.0 <= c / n <= 1.0
    ensures c / n == 1.0 <==> c == n
  {
    var q := c / n;
    assert q * n == c;
    assert (q - 1.0) * n == c - n;
    assert q < 0.0 ==> q * n < 0.0;
    assert q > 1.0 ==> (q - 1.0) * n > 0.0;
    assert c == n ==> q == n / n == 1.0;
  }

  /**
   * As written the figure exceeds 100 whenever more symbiont clades agree
   * than the simulated host tree has nodes: a four-leaf symbiont tree (seven
   * clades) compared with an identical simulated copy over three-leaf host
   * trees (five nodes) scores 140.
   */
  lemma {:induction false} PercentAsWrittenExceeds(s: Score)
    requires 0 < s.simulatedHostNodes < s.correct
    ensures PercentAsWritten(s) > 100.0
    ensures s == Score(7, 7, 5) ==> PercentAsWritten(s) == 140.0
  {
    var q := s.correct as real / s.simulatedHostNodes as real;
    assert q * s.simulatedHostNodes as real == s.correct as real;
    assert q > 1.0;
  }
}
