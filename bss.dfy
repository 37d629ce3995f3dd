/**
 * The command line of the sequence simulator's console application: the
 * arguments are split into partitions at every ":" argument, what follows
 * the last ":" names the output file, the seed and the parallel flag, and
 * each model's parameter values are scattered into the partition's
 * parameter arrays.
 *
 * Per-partition option interpretation, tree import and the simulation itself
 * are not modelled; `Arguments.parseArguments` is not part of this model.
 */
module SimulatorArguments {
  import opened Wrappers

  /** The partition separator; it has no letters, so ignoring case changes nothing. */
  const SPLIT_PARTITION: string := ":"
  const HELP: string := "help"
  const DEFAULT_OUTPUT: string := "output.fasta"
  const EMPTY_ARGUMENTS: string := "Empty or incorrect arguments list."
  const UNRECOGNIZED: string := "Unrecognized option "

  /** How many arguments may follow the last separator, as the code checks. */
  const LEFTOVER_LIMIT_AS_WRITTEN: nat := 2
  /** How many the usage line and the reading of the parallel flag expect. */
  const LEFTOVER_LIMIT: nat := 3

  // ---------------------------------------------------------------------
  // Splitting at the separators

  /** The split loop's state after `k` arguments: the closed segments and where the open one starts. */
  datatype SplitState = SplitState(segments: seq<seq<string>>, from: nat)

  function SplitUpTo(args: seq<string>, k: nat): (st: SplitState)
    requires k <= |args|
    ensures st.from <= k
  {
    if k == 0 then SplitState([], 0)
    else
      var st := SplitUpTo(args, k - 1);
      if args[k - 1] == SPLIT_PARTITION then SplitState(st.segments + [args[st.from..k - 1]], k)
      else st
  }

  /** The number of separators among the arguments. */
  function Separators(xs: seq<string>): (n: nat)
    ensures n <= |xs|
  {
    if xs == [] then 0
    else Separators(xs[..|xs| - 1]) + (if xs[|xs| - 1] == SPLIT_PARTITION then 1 else 0)
  }

  /** Every segment followed by a separator: the inverse of splitting. */
  function Join(segments: seq<seq<string>>): (xs: seq<string>)
    ensures |xs| >= |segments|
  {
    if segments == [] then []
    else Join(segments[..|segments| - 1]) + segments[|segments| - 1] + [SPLIT_PARTITION]
  }

  /** No segment contains the separator. */
  predicate SeparatorFree(segments: seq<seq<string>>)
  {
    forall i :: 0 <= i < |segments| ==> SPLIT_PARTITION !in segments[i]
  }

  /**
   * After any number of arguments, the closed segments hold no separator,
   * there is one per separator seen, and the segments joined with their
   * separators followed by the open segment give back the arguments seen.
   */
  lemma {:induction false} SplitShape(args: seq<string>, k: nat)
    requires k <= |args|
    ensures var st := SplitUpTo(args, k);
      SeparatorFree(st.segments) && SPLIT_PARTITION !in args[st.from..k] &&
      |st.segments| == Separators(args[..k]) &&
      Join(st.segments) + args[st.from..k] == args[..k]
  {
    if k > 0 {
      SplitShape(args, k - 1);
      var st := SplitUpTo(args, k - 1);
      assert args[..k][..k - 1] == args[..k - 1];
      assert args[..k] == args[..k - 1] + [args[k - 1]];
      if args[k - 1] == SPLIT_PARTITION {
        var segs := st.segments + [args[st.from..k - 1]];
        assert segs[..|segs| - 1] == st.segments;
        assert args[st.from..k] == args[st.from..k - 1] + [args[k - 1]];
      } else {
        assert args[st.from..k] == args[st.from..k - 1] + [args[k - 1]];
      }
    }
  }

  /** The split state depends only on the arguments seen so far. */
  lemma {:induction false} SplitPrefix(xs: seq<string>, ys: seq<string>, k: nat)
    requires k <= |xs| && k <= |ys| && xs[..k] == ys[..k]
    ensures SplitUpTo(xs, k) == SplitUpTo(ys, k)
  {
    if k > 0 {
      assert xs[..k - 1] == xs[..k][..k - 1] && ys[..k - 1] == ys[..k][..k - 1];
      assert xs[k - 1] == xs[..k][k - 1] && ys[k - 1] == ys[..k][k - 1];
      SplitPrefix(xs, ys, k - 1);
      var st := SplitUpTo(xs, k - 1);
      if xs[k - 1] == SPLIT_PARTITION {
        assert xs[st.from..k - 1] == xs[..k][st.from..k - 1] == ys[..k][st.from..k - 1] == ys[st.from..k - 1];
      }
    }
  }

  /** Arguments that are not separators leave the split state alone. */
  lemma {:induction false} SplitSkip(xs: seq<string>, k: nat, j: nat)
    requires k <= j <= |xs| && forall i :: k <= i < j ==> xs[i] != SPLIT_PARTITION
    ensures SplitUpTo(xs, j) == SplitUpTo(xs, k)
    decreases j - k
  {
    if k < j {
      SplitSkip(xs, k, j - 1);
    }
  }

  /** A stretch of arguments equal to a separator-free segment holds no separator. */
  lemma {:induction false} NoSeparatorAt(xs: seq<string>, k: nat, seg: seq<string>)
    requires k + |seg| <= |xs| && xs[k..k + |seg|] == seg && SPLIT_PARTITION !in seg
    ensures forall i :: k <= i < k + |seg| ==> xs[i] != SPLIT_PARTITION
  {
    forall i | k <= i < k + |seg|
      ensures xs[i] != SPLIT_PARTITION
    {
      assert xs[i] == seg[i - k];
      assert seg[i - k] in seg;
    }
  }

  /** Splitting joined segments gives the segments back, with nothing open. */
  lemma {:induction false} SplitJoin(segments: seq<seq<string>>)
    requires SeparatorFree(segments)
    ensures SplitUpTo(Join(segments), |Join(segments)|) == SplitState(segments, |Join(segments)|)
  {
    if segments != [] {
      var init := segments[..|segments| - 1];
      var last := segments[|segments| - 1];
      var xs := Join(segments);
      var n := |Join(init)|;
      FreePrefix(segments);
      SplitJoin(init);
      JoinLast(segments);
      SplitPrefix(xs, Join(init), n);
      SplitClose(xs, n, init, last);
      assert init + [last] == segments;
    }
  }

  /** Joined segments are the join of all but the last, then the last segment and a separator. */
  lemma {:induction false} JoinLast(segments: seq<seq<string>>)
    requires segments != []
    ensures var init, last := segments[..|segments| - 1], segments[|segments| - 1];
      var xs, n := Join(segments), |Join(init)|;
      n + |last| < |xs| && xs[..n] == Join(init)[..n] && xs[n..n + |last|] == last && xs[n + |last|] == SPLIT_PARTITION
  {
    var init, last := segments[..|segments| - 1], segments[|segments| - 1];
    assert Join(segments) == Join(init) + last + [SPLIT_PARTITION];
  }

  lemma {:induction false} FreePrefix(segments: seq<seq<string>>)
    requires SeparatorFree(segments) && segments != []
    ensures SeparatorFree(segments[..|segments| - 1]) && SPLIT_PARTITION !in segments[|segments| - 1]
  {
    var init := segments[..|segments| - 1];
    forall i | 0 <= i < |init|
      ensures SPLIT_PARTITION !in init[i]
    {
      assert init[i] == segments[i];
    }
  }

  /** A separator after a separator-free segment closes that segment. */
  lemma {:induction false} SplitClose(xs: seq<string>, n: nat, init: seq<seq<string>>, last: seq<string>)
    requires n + |last| < |xs| && SplitUpTo(xs, n) == SplitState(init, n)
    requires xs[n..n + |last|] == last && SPLIT_PARTITION !in last && xs[n + |last|] == SPLIT_PARTITION
    ensures SplitUpTo(xs, n + |last| + 1) == SplitState(init + [last], n + |last| + 1)
  {
    NoSeparatorAt(xs, n, last);
    SplitSkip(xs, n, n + |last|);
  }

  /** Splitting joined segments followed by separator-free arguments leaves those arguments open. */
  lemma {:induction false} SplitJoinRest(segments: seq<seq<string>>, rest: seq<string>)
    requires SeparatorFree(segments) && SPLIT_PARTITION !in rest
    ensures var args := Join(segments) + rest;
      SplitUpTo(args, |args|) == SplitState(segments, |Join(segments)|)
  {
    var args := Join(segments) + rest;
    var n := |Join(segments)|;
    SplitJoin(segments);
    assert args[..n] == Join(segments)[..n];
    SplitPrefix(args, Join(segments), n);
    assert args[n..n + |rest|] == rest;
    NoSeparatorAt(args, n, rest);
    SplitSkip(args, n, |args|);
  }

  /** The split loop of `simulate`. */
  method SplitPartitions(args: seq<string>) returns (argsList: seq<seq<string>>, from: nat)
    ensures SplitState(argsList, from) == SplitUpTo(args, |args|)
    ensures SeparatorFree(argsList) && SPLIT_PARTITION !in args[from..]
    ensures |argsList| == Separators(args) && Join(argsList) + args[from..] == args
  {
    argsList, from := [], 0;
    var to := 0;
    while to < |args|
      invariant 0 <= to <= |args|
      invariant SplitUpTo(args, to) == SplitState(argsList, from)
    {
      if args[to] == SPLIT_PARTITION {
        argsList := argsList + [args[from..to]];
        from := to + 1;
      }
      to := to + 1;
    }
    SplitShape(args, |args|);
    assert args[..|args|] == args;
  }

  // ---------------------------------------------------------------------
  // Accepting or rejecting the command line

  /** `String.contains`. */
  predicate Contains(s: string, sub: string)
    decreases |s|
  {
    |sub| <= |s| && (s[..|sub|] == sub || Contains(s[1..], sub))
  }

  /**
   * How `simulate` ends its argument check: with the usage text and an
   * optional message and status 0, with an exception (usage, status 1), or
   * with the partitions and the arguments left after the last separator.
   */
  datatype Outcome =
    | Usage(message: Option<string>)
    | Failed
    | Partitions(segments: seq<seq<string>>, leftover: seq<string>)

  /** The argument check, with `limit` arguments allowed after the last separator. */
  function Classify(args: seq<string>, limit: nat): (o: Outcome)
  {
    var st := SplitUpTo(args, |args|);
    if |args| == 0 then Failed
    else if Contains(args[0], HELP) then Usage(None)
    else if |st.segments| == 0 then Usage(Some(EMPTY_ARGUMENTS))
    else
      var leftover := args[st.from..];
      if |leftover| > limit then Usage(Some(UNRECOGNIZED + leftover[limit]))
      else Partitions(st.segments, leftover)
  }

  /**
   * An accepted command line is at least one separator-free segment per
   * separator, then at most `limit` separator-free arguments, and nothing else.
   */
  lemma {:induction false} Accepted(args: seq<string>, limit: nat)
    requires Classify(args, limit).Partitions?
    ensures var o := Classify(args, limit);
      |o.segments| >= 1 && |o.leftover| <= limit &&
      SeparatorFree(o.segments) && SPLIT_PARTITION !in o.leftover &&
      |o.segments| == Separators(args) && Join(o.segments) + o.leftover == args
  {
    SplitShape(args, |args|);
    assert args[..|args|] == args;
  }

  /**
   * Conversely, separator-free segments and at most `limit` separator-free
   * trailing arguments are accepted as exactly those partitions and leftovers,
   * unless the first argument asks for help.
   */
  lemma {:induction false} AcceptedJoin(segments: seq<seq<string>>, leftover: seq<string>, limit: nat)
    requires |segments| >= 1 && SeparatorFree(segments) && SPLIT_PARTITION !in leftover && |leftover| <= limit
    requires !Contains(Join(segments)[0], HELP)
    ensures Classify(Join(segments) + leftover, limit) == Partitions(segments, leftover)
  {
    var args := Join(segments) + leftover;
    SplitJoinRest(segments, leftover);
    assert args[|Join(segments)|..] == leftover;
    assert args[0] == Join(segments)[0];
  }

  /** `simulate` up to the per-partition parsing, allowing the trailing parallel flag. */
  method CheckArguments(args: seq<string>) returns (o: Outcome)
    ensures o == Classify(args, LEFTOVER_LIMIT)
  {
    var argsList, from := SplitPartitions(args);
    if |args| == 0 {
      return Failed;
    }
    if Contains(args[0], HELP) {
      return Usage(None);
    } else if |argsList| == 0 {
      return Usage(Some(EMPTY_ARGUMENTS));
    }
    var leftoverArguments := args[from..];
    if |leftoverArguments| > LEFTOVER_LIMIT {
      return Usage(Some(UNRECOGNIZED + leftoverArguments[LEFTOVER_LIMIT]));
    }
    o := Partitions(argsList, leftoverArguments);
  }

  // ---------------------------------------------------------------------
  // What the leftover arguments set

  /** The output file, the seed (still unparsed) and the parallel flag (still unparsed). */
  datatype Settings = Settings(outputFile: string, seed: Option<string>, parallel: Option<string>)

  function SettingsOf(leftover: seq<string>): (s: Settings)
  {
    Settings(
      if |leftover| > 0 then leftover[0] else DEFAULT_OUTPUT,
      if |leftover| > 1 then Some(leftover[1]) else None,
      if |leftover| > 2 then Some(leftover[2]) else None)
  }

  /** The leftover arguments a setting was read from. */
  function Unread(s: Settings): (xs: seq<string>)
  {
    [s.outputFile] +
    (if s.seed.Some? then [s.seed.value] else []) +
    (if s.parallel.Some? then [s.parallel.value] else [])
  }

  /**
   * Every accepted leftover argument reaches a setting: reading them back
   * gives the leftovers, and with none the output defaults and no seed is set.
   */
  lemma {:induction false} SettingsRoundTrip(leftover: seq<string>)
    requires |leftover| <= LEFTOVER_LIMIT
    ensures |leftover| >= 1 ==> Unread(SettingsOf(leftover)) == leftover
    ensures |leftover| == 0 ==> SettingsOf(leftover) == Settings(DEFAULT_OUTPUT, None, None)
    ensures SettingsOf(leftover).seed.Some? <==> |leftover| >= 2
  {
    if |leftover| == 2 {
      assert leftover == [leftover[0], leftover[1]];
    } else if |leftover| == 3 {
      assert leftover == [leftover[0], leftover[1], leftover[2]];
    }
  }

  /** As written, the parallel flag can never be set: a third leftover is rejected first. */
  lemma {:induction false} AsWrittenNeverParallel(args: seq<string>)
    requires Classify(args, LEFTOVER_LIMIT_AS_WRITTEN).Partitions?
    ensures SettingsOf(Classify(args, LEFTOVER_LIMIT_AS_WRITTEN).leftover).parallel == None
  {
    Accepted(args, LEFTOVER_LIMIT_AS_WRITTEN);
  }

  /** As written, a command line ending in output file, seed and flag is refused, naming the flag. */
  lemma {:induction false} AsWrittenRejectsParallel(segments: seq<seq<string>>, leftover: seq<string>)
    requires |segments| >= 1 && SeparatorFree(segments) && SPLIT_PARTITION !in leftover && |leftover| == 3
    requires !Contains(Join(segments)[0], HELP)
    ensures Classify(Join(segments) + leftover, LEFTOVER_LIMIT_AS_WRITTEN) == Usage(Some(UNRECOGNIZED + leftover[2]))
  {
    var args := Join(segments) + leftover;
    SplitJoinRest(segments, leftover);
    assert args[|Join(segments)|..] == leftover;
    assert args[0] == Join(segments)[0];
  }

  /** With the intended limit, the same command line is accepted and the flag reaches its setting. */
  lemma {:induction false} ParallelReached(segments: seq<seq<string>>, leftover: seq<string>)
    requires |segments| >= 1 && SeparatorFree(segments) && SPLIT_PARTITION !in leftover && |leftover| == 3
    requires !Contains(Join(segments)[0], HELP)
    ensures Classify(Join(segments) + leftover, LEFTOVER_LIMIT) == Partitions(segments, leftover)
    ensures SettingsOf(leftover).parallel == Some(leftover[2])
  {
    AcceptedJoin(segments, leftover, LEFTOVER_LIMIT);
  }

  // ---------------------------------------------------------------------
  // Scattering parameter values

  /** The first position the scatter loop cannot complete (an index off the array, or no value left), or the row's length. */
  function Reach(length: nat, indices: seq<int>, values: seq<real>, i: nat): (r: nat)
    requires i <= |indices|
    ensures i <= r <= |indices| && (r == i || r <= |values|)
    ensures forall j :: i <= j < r ==> j < |values| && 0 <= indices[j] < length
    ensures r < |indices| ==> r >= |values| || !(0 <= indices[r] < length)
    decreases |indices| - i
  {
    if i == |indices| || i >= |values| || !(0 <= indices[i] < length) then i
    else Reach(length, indices, values, i + 1)
  }

  /** The array after writing `values[j]` at `indices[j]` for every `j < k`, in order. */
  function Scattered(a: seq<real>, indices: seq<int>, values: seq<real>, k: nat): (r: seq<real>)
    requires k <= |indices| && k <= |values|
    requires forall j :: 0 <= j < k ==> 0 <= indices[j] < |a|
    ensures |r| == |a|
  {
    if k == 0 then a
    else Scattered(a, indices, values, k - 1)[indices[k - 1] := values[k - 1]]
  }

  /** Positions the row does not name keep their value. */
  lemma {:induction false} ScatterUntouched(a: seq<real>, indices: seq<int>, values: seq<real>, k: nat, x: int)
    requires k <= |indices| && k <= |values| && forall j :: 0 <= j < k ==> 0 <= indices[j] < |a|
    requires 0 <= x < |a| && x !in indices[..k]
    ensures Scattered(a, indices, values, k)[x] == a[x]
  {
    if k > 0 {
      assert indices[k - 1] == indices[..k][k - 1];
      assert indices[..k - 1] == indices[..k][..k - 1];
      ScatterUntouched(a, indices, values, k - 1, x);
    }
  }

  /** A named position holds the value of the last entry naming it. */
  lemma {:induction false} ScatterWritten(a: seq<real>, indices: seq<int>, values: seq<real>, k: nat, j: nat)
    requires k <= |indices| && k <= |values| && forall i :: 0 <= i < k ==> 0 <= indices[i] < |a|
    requires j < k && forall i :: j < i < k ==> indices[i] != indices[j]
    ensures Scattered(a, indices, values, k)[indices[j]] == values[j]
  {
    if j < k - 1 {
      ScatterWritten(a, indices, values, k - 1, j);
    }
  }

  /** With distinct indices, exactly the named positions change, each to its own value. */
  lemma {:induction false} ScatterDistinct(a: seq<real>, indices: seq<int>, values: seq<real>)
    requires |indices| <= |values| && forall i :: 0 <= i < |indices| ==> 0 <= indices[i] < |a|
    requires forall i, j :: 0 <= i < j < |indices| ==> indices[i] != indices[j]
    ensures forall j :: 0 <= j < |indices| ==> Scattered(a, indices, values, |indices|)[indices[j]] == values[j]
    ensures forall x :: 0 <= x < |a| && x !in indices ==> Scattered(a, indices, values, |indices|)[x] == a[x]
  {
    forall j | 0 <= j < |indices|
      ensures Scattered(a, indices, values, |indices|)[indices[j]] == values[j]
    {
      ScatterWritten(a, indices, values, |indices|, j);
    }
    forall x | 0 <= x < |a| && x !in indices
      ensures Scattered(a, indices, values, |indices|)[x] == a[x]
    {
      assert indices[..|indices|] == indices;
      ScatterUntouched(a, indices, values, |indices|, x);
    }
  }

  /**
   * The `parse*Values` methods: write each given value at the position the
   * model's index row names for it. An index off the array or a row longer
   * than the values stops the loop with an exception after the writes before it.
   */
  method ParseValues(target: array<real>, table: seq<seq<int>>, model: nat, values: seq<real>) returns (ok: bool)
    requires model < |table|
    modifies target
    ensures var k := Reach(target.Length, table[model], values, 0);
      (ok <==> k == |table[model]|) &&
      target[..] == Scattered(old(target[..]), table[model], values, k)
  {
    var indices := table[model];
    var i := 0;
    while i < |indices|
      invariant 0 <= i <= Reach(target.Length, indices, values, 0)
      invariant Reach(target.Length, indices, values, 0) == Reach(target.Length, indices, values, i)
      invariant target[..] == Scattered(old(target[..]), indices, values, i)
    {
      if i >= |values| || !(0 <= indices[i] < target.Length) {
        return false;
      }
      var k := indices[i];
      target[k] := values[i];
      i := i + 1;
    }
    return true;
  }
}
