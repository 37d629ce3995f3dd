/**
 * The symbiont-to-host association table (`parse_associations`) and the step
 * that records each symbiont taxon's host in the symbiont document.
 */
module Associations {
  import opened Wrappers
  import opened Xml
  import opened Fragments

  /** The ways the setup script stops without producing a document. */
  datatype SetupError =
    | MalformedAssociation(line: string)   // the line does not split into exactly two fields
    | UnassociatedTaxon(taxon: Node)       // a symbiont taxon whose id is not in the table
    | AnchorNotFound(tag: string)          // a container the script relies on is missing

  /** `s.split(sep)`: the pieces between separators, one more than there are separators. */
  function Split(s: string, sep: char): (r: seq<string>)
    ensures |r| >= 1
    ensures forall k :: 0 <= k < |r| ==> sep !in r[k]
    decreases |s|
  {
    if |s| == 0 then [""]
    else
      var rest := Split(s[1..], sep);
      if s[0] == sep then [""] + rest
      else [[s[0]] + rest[0]] + rest[1..]
  }

  /** `sep.join(pieces)`. */
  function Join(pieces: seq<string>, sep: char): string
    requires |pieces| >= 1
    decreases |pieces|
  {
    if |pieces| == 1 then pieces[0] else pieces[0] + [sep] + Join(pieces[1..], sep)
  }

  /** How often `c` occurs in `s`. */
  function Occurrences(s: string, c: char): nat
  {
    if |s| == 0 then 0 else (if s[0] == c then 1 else 0) + Occurrences(s[1..], c)
  }

  /** Splitting loses nothing: joining the pieces gives the string back. */
  lemma {:induction false} JoinSplit(s: string, sep: char)
    ensures Join(Split(s, sep), sep) == s
    decreases |s|
  {
    if |s| > 0 {
      var rest := Split(s[1..], sep);
      JoinSplit(s[1..], sep);
      if s[0] == sep {
        assert Split(s, sep)[1..] == rest;
      } else {
        var r := Split(s, sep);
        if |rest| == 1 {
          assert r == [[s[0]] + rest[0]];
        } else {
          assert r[1..] == rest[1..];
          assert Join(rest, sep) == rest[0] + [sep] + Join(rest[1..], sep);
        }
        assert s == [s[0]] + s[1..];
      }
    }
  }

  lemma {:induction false} SplitCons(c: char, s: string, sep: char)
    ensures c == sep ==> Split([c] + s, sep) == [""] + Split(s, sep)
    ensures c != sep ==> Split([c] + s, sep) == [[c] + Split(s, sep)[0]] + Split(s, sep)[1..]
  {
    assert ([c] + s)[1..] == s;
  }

  /** Pieces without separators come back unchanged from a join and a split. */
  lemma {:induction false} SplitJoin(pieces: seq<string>, sep: char)
    requires |pieces| >= 1 && forall k :: 0 <= k < |pieces| ==> sep !in pieces[k]
    ensures Split(Join(pieces, sep), sep) == pieces
    decreases |pieces|, |pieces[0]|
  {
    var p0 := pieces[0];
    if |p0| > 0 {
      var tail := [p0[1..]] + pieces[1..];
      JoinFirstChar(pieces, sep);
      SplitJoin(tail, sep);
      SplitCons(p0[0], Join(tail, sep), sep);
      assert p0 == [p0[0]] + tail[0] && tail[1..] == pieces[1..];
      assert pieces == [[p0[0]] + tail[0]] + tail[1..];
    } else if |pieces| > 1 {
      SplitJoin(pieces[1..], sep);
      assert Join(pieces, sep) == [sep] + Join(pieces[1..], sep);
      SplitCons(sep, Join(pieces[1..], sep), sep);
      assert pieces == [""] + pieces[1..];
    }
  }

  /** A join starts with the first character of its first piece, followed by the join of what is left. */
  lemma {:induction false} JoinFirstChar(pieces: seq<string>, sep: char)
    requires |pieces| >= 1 && |pieces[0]| > 0 && forall k :: 0 <= k < |pieces| ==> sep !in pieces[k]
    ensures var tail := [pieces[0][1..]] + pieces[1..];
      (forall k :: 0 <= k < |tail| ==> sep !in tail[k]) && |tail| + |tail[0]| < |pieces| + |pieces[0]|
      && Join(pieces, sep) == [pieces[0][0]] + Join(tail, sep)
  {
    var p0 := pieces[0];
    var tail := [p0[1..]] + pieces[1..];
    assert p0 == [p0[0]] + p0[1..];
    assert sep !in p0[1..];
    assert tail[1..] == pieces[1..];
    forall k | 0 <= k < |tail|
      ensures sep !in tail[k]
    {
      if k > 0 {
        assert tail[k] == pieces[k];
      }
    }
  }

  /** There is one piece more than there are separators. */
  lemma {:induction false} SplitCount(s: string, sep: char)
    ensures |Split(s, sep)| == Occurrences(s, sep) + 1
    decreases |s|
  {
    if |s| > 0 {
      SplitCount(s[1..], sep);
    }
  }

  /** One association: a symbiont taxon id and its host taxon id. */
  datatype Association = Association(symbiont: string, host: string)

  /**
   * One line of the association file: its last character (the newline) is
   * cut off, whatever it is, and the rest must split on tab into exactly two
   * fields.
   */
  function ParseLine(line: string): (r: Result<Association, SetupError>)
    ensures r.Success? ==> '\t' !in r.value.symbiont && '\t' !in r.value.host
    ensures r.Failure? ==> r.error == MalformedAssociation(line)
  {
    var body := if |line| == 0 then line else line[..|line| - 1];
    var fields := Split(body, '\t');
    if |fields| != 2 then Failure(MalformedAssociation(line))
    else Success(Association(fields[0], fields[1]))
  }

  /** A line parses exactly when, without its last character, it holds one tab. */
  lemma {:induction false} ParseLineAccepts(line: string)
    ensures ParseLine(line).Success? <==> |line| > 0 && Occurrences(line[..|line| - 1], '\t') == 1
  {
    if |line| > 0 {
      SplitCount(line[..|line| - 1], '\t');
    } else {
      SplitCount(line, '\t');
    }
  }

  /** Writing an association as a line and parsing it back gives the association. */
  lemma {:induction false} ParseLineRoundTrip(a: Association, last: char)
    requires '\t' !in a.symbiont && '\t' !in a.host
    ensures ParseLine(a.symbiont + "\t" + a.host + [last]) == Success(a)
  {
    var line := a.symbiont + "\t" + a.host + [last];
    assert line[..|line| - 1] == Join([a.symbiont, a.host], '\t');
    SplitJoin([a.symbiont, a.host], '\t');
  }

  /** A line that parses is the two fields joined by a tab, followed by the character cut off. */
  lemma {:induction false} ParseLineInverse(line: string)
    requires ParseLine(line).Success?
    ensures var a := ParseLine(line).value;
      line == a.symbiont + "\t" + a.host + [line[|line| - 1]]
  {
    var body := line[..|line| - 1];
    JoinSplit(body, '\t');
    var fields := Split(body, '\t');
    assert Join(fields, '\t') == fields[0] + "\t" + fields[1];
    assert line == body + [line[|line| - 1]];
  }

  /** The table after reading `lines` in order: a later line overwrites an earlier one. */
  function Table(lines: seq<string>): Result<map<string, string>, SetupError>
  {
    if |lines| == 0 then Success(map[])
    else
      match Table(lines[..|lines| - 1])
      case Failure(e) => Failure(e)
      case Success(t) =>
        match ParseLine(lines[|lines| - 1])
        case Failure(e) => Failure(e)
        case Success(a) => Success(t[a.symbiont := a.host])
  }

  /** `parse_associations`, over the lines of the association file. */
  method ParseAssociations(lines: seq<string>) returns (r: Result<map<string, string>, SetupError>)
    ensures r == Table(lines)
  {
    var associations: map<string, string> := map[];
    var k := 0;
    while k < |lines|
      invariant 0 <= k <= |lines|
      invariant Table(lines[..k]) == Success(associations)
    {
      assert lines[..k + 1][..k] == lines[..k];
      var parsed := ParseLine(lines[k]);
      if parsed.Failure? {
        TableFailureSticks(lines, k + 1);
        return Failure(parsed.error);
      }
      associations := associations[parsed.value.symbiont := parsed.value.host];
      k := k + 1;
    }
    assert lines[..k] == lines;
    return Success(associations);
  }

  /** Once a prefix of the lines fails, the whole table fails the same way. */
  lemma {:induction false} TableFailureSticks(lines: seq<string>, k: nat)
    requires k <= |lines| && Table(lines[..k]).Failure?
    ensures Table(lines) == Table(lines[..k])
    decreases |lines| - k
  {
    if k < |lines| {
      assert lines[..k + 1][..k] == lines[..k];
      TableFailureSticks(lines, k + 1);
    } else {
      assert lines[..k] == lines;
    }
  }

  /** The table fails exactly when some line is malformed, and then with the first such line. */
  lemma {:induction false} TableFails(lines: seq<string>)
    ensures Table(lines).Success? <==> forall k :: 0 <= k < |lines| ==> ParseLine(lines[k]).Success?
    ensures Table(lines).Failure? ==>
      exists k :: (0 <= k < |lines| && Table(lines).error == MalformedAssociation(lines[k])
        && ParseLine(lines[k]).Failure? && forall j :: 0 <= j < k ==> ParseLine(lines[j]).Success?)
  {
    if |lines| > 0 {
      var front := lines[..|lines| - 1];
      TableFails(front);
      assert forall k :: 0 <= k < |front| ==> front[k] == lines[k];
    }
  }

  /**
   * The table holds a symbiont exactly when some line names it, and then
   * maps it to the host given on the last line naming it.
   */
  lemma {:induction false} TableLookup(lines: seq<string>, symbiont: string)
    requires Table(lines).Success?
    ensures symbiont in Table(lines).value <==>
      exists k :: 0 <= k < |lines| && ParseLine(lines[k]).Success? && ParseLine(lines[k]).value.symbiont == symbiont
    ensures forall k ::
      (0 <= k < |lines| && ParseLine(lines[k]).Success? && ParseLine(lines[k]).value.symbiont == symbiont
       && (forall j :: k < j < |lines| ==> !(ParseLine(lines[j]).Success? && ParseLine(lines[j]).value.symbiont == symbiont)))
      ==> symbiont in Table(lines).value && Table(lines).value[symbiont] == ParseLine(lines[k]).value.host
  {
    if |lines| > 0 {
      var front := lines[..|lines| - 1];
      var last := |lines| - 1;
      TableLookup(front, symbiont);
      TableFails(lines);
      assert forall k :: 0 <= k < |front| ==> front[k] == lines[k];
      var a := ParseLine(lines[last]).value;
      if a.symbiont != symbiont {
        if symbiont in Table(lines).value {
          var k :| 0 <= k < |front| && ParseLine(front[k]).Success? && ParseLine(front[k]).value.symbiont == symbiont;
          assert ParseLine(lines[k]).value.symbiont == symbiont;
        }
      }
    }
  }

  /** Whether a child of `taxa` can be given a host: any non-taxon can; a taxon needs a known id. */
  predicate Associated(c: Node, table: map<string, string>)
  {
    !Tagged(c, "taxon") || ("id" in c.attrs && c.attrs["id"] in table)
  }

  /** A child of `taxa` after the association step: a taxon gains its host as a last child. */
  function WithHost(c: Node, table: map<string, string>): Node
    requires Associated(c, table)
  {
    if Tagged(c, "taxon") then AppendChildren(c, [HostAttribute(table[c.attrs["id"]])]) else c
  }

  /** The symbiont has a `taxa` element and every child of it can be given a host. */
  predicate AllAssociated(symbiont: Node, table: map<string, string>)
  {
    symbiont.Element? && Find(symbiont.children, "taxa").Some?
    && forall k :: 0 <= k < |symbiont.children[Find(symbiont.children, "taxa").value].children| ==>
         Associated(symbiont.children[Find(symbiont.children, "taxa").value].children[k], table)
  }

  /** The symbiont document after the association step. */
  function WithHosts(symbiont: Node, table: map<string, string>): Node
    requires AllAssociated(symbiont, table)
  {
    var t := Find(symbiont.children, "taxa").value;
    var taxa := symbiont.children[t];
    var cs := seq(|taxa.children|, k requires 0 <= k < |taxa.children| => WithHost(taxa.children[k], table));
    symbiont.(children := symbiont.children[t := taxa.(children := cs)])
  }

  /**
   * The association step: every `taxon` child of the symbiont's first `taxa`
   * element gains one last child naming its host.
   */
  method Associate(symbiont: Node, table: map<string, string>) returns (r: Result<Node, SetupError>)
    ensures r.Success? <==> AllAssociated(symbiont, table)
    ensures r.Failure? && (!symbiont.Element? || Find(symbiont.children, "taxa").None?) ==> r.error == AnchorNotFound("taxa")
    ensures r.Failure? && symbiont.Element? && Find(symbiont.children, "taxa").Some? ==>
      var taxa := symbiont.children[Find(symbiont.children, "taxa").value];
      exists k :: 0 <= k < |taxa.children| && r.error == UnassociatedTaxon(taxa.children[k]) && !Associated(taxa.children[k], table)
    ensures r.Success? ==> r.value.Element? && |r.value.children| == |symbiont.children|
    ensures r.Success? ==>
      var t := Find(symbiont.children, "taxa").value;
      var taxa, taxa' := symbiont.children[t], r.value.children[t];
      r.value.Element? && r.value.tag == symbiont.tag && r.value.attrs == symbiont.attrs
      && |r.value.children| == |symbiont.children|
      && (forall j :: 0 <= j < |symbiont.children| && j != t ==> r.value.children[j] == symbiont.children[j])
      && taxa'.Element? && taxa'.tag == taxa.tag && taxa'.attrs == taxa.attrs
      && |taxa'.children| == |taxa.children|
      && forall k :: 0 <= k < |taxa.children| ==> taxa'.children[k] == WithHost(taxa.children[k], table)
    ensures r.Success? ==> r.value == WithHosts(symbiont, table)
  {
    if !symbiont.Element? || Find(symbiont.children, "taxa").None? {
      return Failure(AnchorNotFound("taxa"));
    }
    var t := Find(symbiont.children, "taxa").value;
    var taxa := symbiont.children[t];
    var cs := taxa.children;
    var k := 0;
    while k < |cs|
      invariant 0 <= k <= |cs| && |cs| == |taxa.children|
      invariant forall j :: 0 <= j < k ==> Associated(taxa.children[j], table)
      invariant forall j :: 0 <= j < k ==> cs[j] == WithHost(taxa.children[j], table)
      invariant forall j :: k <= j < |cs| ==> cs[j] == taxa.children[j]
    {
      var c := cs[k];
      if Tagged(c, "taxon") {
        if "id" !in c.attrs || c.attrs["id"] !in table {
          r := Failure(UnassociatedTaxon(c));
          assert symbiont.children[Find(symbiont.children, "taxa").value] == taxa;
          assert exists j :: 0 <= j < |taxa.children| && r.error == UnassociatedTaxon(taxa.children[j]) && !Associated(taxa.children[j], table) by {
            assert r.error == UnassociatedTaxon(taxa.children[k]);
          }
          return;
        }
        cs := cs[k := AppendChildren(c, [HostAttribute(table[c.attrs["id"]])])];
      }
      k := k + 1;
    }
    assert cs == seq(|taxa.children|, k requires 0 <= k < |taxa.children| => WithHost(taxa.children[k], table));
    r := Success(symbiont.(children := symbiont.children[t := taxa.(children := cs)]));
  }
}
