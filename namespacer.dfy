/**
 * `append_id_prefix`: the pass that puts a document's identifiers in the
 * namespace of its taxon label before two documents are merged.
 */
module Namespacer {
  import opened Wrappers
  import opened Xml

  /** Tags whose identifiers are shared by both documents and stay unprefixed. */
  const Exempt: seq<string> := ["taxon", "operators", "mcmc", "posterior", "prior", "likelihood"]

  /** `prefix + '.' + name`. */
  function Qualify(prefix: string, name: string): (r: string)
    ensures |r| == |prefix| + 1 + |name| && r[..|prefix|] == prefix && r[|prefix|] == '.'
  {
    prefix + "." + name
  }

  /** What the pass does to a single node: its own attributes only, children untouched. */
  function Rename(n: Node, prefix: string): (r: Node)
    ensures r.Element? <==> n.Element?
    ensures n.Comment? ==> r == n
    ensures n.Element? ==> r.tag == n.tag && r.children == n.children && r.attrs.Keys == n.attrs.Keys
    ensures n.Element? ==> forall key :: key in n.attrs && key != "id" && key != "idref" ==> r.attrs[key] == n.attrs[key]
  {
    match n
    case Comment(_) => n
    case Element(tag, attrs, _) =>
      if tag in Exempt then n
      else if "id" in attrs then n.(attrs := attrs["id" := Qualify(prefix, attrs["id"])])
      else if "idref" in attrs then n.(attrs := attrs["idref" := Qualify(prefix, attrs["idref"])])
      else n
  }

  /** The whole pass: every node of the tree, the root included, renamed. */
  function AppendIdPrefix(n: Node, prefix: string): (r: Node)
    ensures n.Element? <==> r.Element?
    ensures n.Element? ==> |r.children| == |n.children| && (CommentFree(n.children) ==> CommentFree(r.children))
    decreases n
  {
    match n
    case Comment(_) => n
    case Element(_, _, cs) =>
      Rename(n, prefix).(children := seq(|cs|, i requires 0 <= i < |cs| => AppendIdPrefix(cs[i], prefix)))
  }

  /** A node without its children: what `Rename` decides. */
  function Shallow(n: Node): Node
  {
    if n.Element? then n.(children := []) else n
  }

  /** The pass keeps the shape of the tree and renames the node found at every path. */
  lemma {:induction false} RenameAtEveryPath(t: Node, prefix: string, path: seq<nat>)
    ensures At(AppendIdPrefix(t, prefix), path).Some? <==> At(t, path).Some?
    ensures At(t, path).Some? ==>
      Shallow(At(AppendIdPrefix(t, prefix), path).value) == Shallow(Rename(At(t, path).value, prefix))
    decreases |path|
  {
    if path != [] && t.Element? && path[0] < |t.children| {
      RenameAtEveryPath(t.children[path[0]], prefix, path[1..]);
    }
  }

  /**
   * After the pass, an `id` on an exempt tag is unchanged and every other `id`
   * carries the prefix; an `idref` beside an `id` is left alone.
   */
  lemma {:induction false} PrefixedIdentifiers(t: Node, prefix: string, path: seq<nat>)
    requires At(t, path).Some? && At(t, path).value.Element?
    ensures At(AppendIdPrefix(t, prefix), path).Some?
    ensures var e, e' := At(t, path).value, At(AppendIdPrefix(t, prefix), path).value;
      e'.Element? && e'.tag == e.tag && e'.attrs.Keys == e.attrs.Keys
    ensures var e, e' := At(t, path).value, At(AppendIdPrefix(t, prefix), path).value;
      "id" in e.attrs ==>
        e'.attrs["id"] == if e.tag in Exempt then e.attrs["id"] else Qualify(prefix, e.attrs["id"])
    ensures var e, e' := At(t, path).value, At(AppendIdPrefix(t, prefix), path).value;
      "idref" in e.attrs && "id" !in e.attrs ==>
        e'.attrs["idref"] == if e.tag in Exempt then e.attrs["idref"] else Qualify(prefix, e.attrs["idref"])
    ensures var e, e' := At(t, path).value, At(AppendIdPrefix(t, prefix), path).value;
      "idref" in e.attrs && "id" in e.attrs ==> e'.attrs["idref"] == e.attrs["idref"]
  {
    RenameAtEveryPath(t, prefix, path);
    var e, e' := At(t, path).value, At(AppendIdPrefix(t, prefix), path).value;
    assert Shallow(e') == Shallow(Rename(e, prefix));
  }

  /** The pass is not idempotent: a second run with the same label prefixes again. */
  lemma {:induction false} PrefixTwice(t: Node, prefix: string, path: seq<nat>)
    requires At(t, path).Some? && At(t, path).value.Element?
    requires At(t, path).value.tag !in Exempt && "id" in At(t, path).value.attrs
    ensures At(AppendIdPrefix(AppendIdPrefix(t, prefix), prefix), path).Some?
    ensures var e := At(AppendIdPrefix(AppendIdPrefix(t, prefix), prefix), path).value;
      e.Element? && "id" in e.attrs && e.attrs["id"] == Qualify(prefix, Qualify(prefix, At(t, path).value.attrs["id"]))
    ensures AppendIdPrefix(AppendIdPrefix(t, prefix), prefix) != AppendIdPrefix(t, prefix)
  {
    var once := AppendIdPrefix(t, prefix);
    PrefixedIdentifiers(t, prefix, path);
    PrefixedIdentifiers(once, prefix, path);
    var twice := AppendIdPrefix(once, prefix);
    assert |At(twice, path).value.attrs["id"]| > |At(once, path).value.attrs["id"]|;
  }
}
