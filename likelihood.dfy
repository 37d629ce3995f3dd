/**
 * `CophylogenyLikelihood`: which host node each symbiont node is mapped to,
 * kept in an array with NO_HOST for "no host", a cached log likelihood, and
 * a stored copy of both for the sampler's store/restore protocol.
 */
module Likelihood {
  import opened Wrappers

  /** `CophylogenyLikelihood.NO_HOST`. */
  const NO_HOST: int := -1

  /** The array entry for a host node reference: its number, or NO_HOST for null. */
  function Encode(host: Option<nat>): (r: int)
    ensures r >= NO_HOST
    ensures r == NO_HOST <==> host.None?
  {
    match host
    case None => NO_HOST
    case Some(h) => h
  }

  /** The host node reference an array entry stands for. */
  function Decode(entry: int): (r: Option<nat>)
    requires entry >= NO_HOST
    ensures r.None? <==> entry == NO_HOST
  {
    if entry == NO_HOST then None else Some(entry)
  }

  /** Writing a reference and reading it back gives the same reference, and conversely. */
  lemma {:induction false} EncodeDecode(host: Option<nat>, entry: int)
    requires entry >= NO_HOST
    ensures Decode(Encode(host)) == host
    ensures Encode(Decode(entry)) == entry
  {
  }

  class CophylogenyLikelihood {
    /** Number of host nodes; a state names one of them or is NO_HOST. */
    const hostCount: nat
    /** `reconstructedStates`: one slot per symbiont node. */
    const states: array<int>
    /** `storedReconstructedStates`. */
    const storedStates: array<int>
    var logLikelihood: real
    var storedLogLikelihood: real
    var likelihoodKnown: bool
    var storedLikelihoodKnown: bool

    ghost predicate Valid()
      reads this, states, storedStates
    {
      states != storedStates
      && states.Length == storedStates.Length
      && (forall i :: 0 <= i < states.Length ==> NO_HOST <= states[i] < hostCount)
      && (forall i :: 0 <= i < storedStates.Length ==> NO_HOST <= storedStates[i] < hostCount)
    }

    /** Both state arrays have one zero-filled slot per symbiont node; nothing is known yet. */
    constructor (hostCount: nat, symbiontCount: nat)
      requires hostCount > 0
      ensures Valid() && fresh(states) && fresh(storedStates)
      ensures this.hostCount == hostCount && states.Length == symbiontCount
      ensures states[..] == storedStates[..] == seq(symbiontCount, _ => 0)
      ensures !likelihoodKnown && !storedLikelihoodKnown
    {
      this.hostCount := hostCount;
      states := new int[symbiontCount](_ => 0);
      storedStates := new int[symbiontCount](_ => 0);
      likelihoodKnown := false;
      storedLikelihoodKnown := false;
    }

    /** `getStatesForNode`: the host of symbiont node `node`, or None for NO_HOST. */
    function GetStatesForNode(node: nat): (r: Option<nat>)
      requires Valid() && node < states.Length
      reads this, states, storedStates
      ensures r.None? <==> states[node] == NO_HOST
      ensures r.Some? ==> r.value == states[node] && r.value < hostCount
    {
      Decode(states[node])
    }

    /** `setStatesForNode`: one slot changes, and the cached likelihood is no longer known. */
    method SetStatesForNode(node: nat, host: Option<nat>)
      requires Valid() && node < states.Length
      requires host.Some? ==> host.value < hostCount
      modifies this, states
      ensures Valid()
      ensures states[..] == old(states[..])[node := Encode(host)]
      ensures GetStatesForNode(node) == host
      ensures !likelihoodKnown
      ensures logLikelihood == old(logLikelihood)
      ensures storedLogLikelihood == old(storedLogLikelihood) && storedLikelihoodKnown == old(storedLikelihoodKnown)
    {
      likelihoodKnown := false;
      if host.None? {
        states[node] := NO_HOST;
      } else {
        states[node] := host.value;
      }
    }

    /**
     * `getLogLikelihood`: the cached value when it is known, otherwise
     * `computed` (what `calculateLogLikelihood` yields for the current state),
     * which then becomes the cached value.
     */
    method GetLogLikelihood(computed: real) returns (r: real)
      requires Valid()
      modifies this
      ensures Valid()
      ensures r == if old(likelihoodKnown) then old(logLikelihood) else computed
      ensures likelihoodKnown && logLikelihood == r
      ensures storedLogLikelihood == old(storedLogLikelihood) && storedLikelihoodKnown == old(storedLikelihoodKnown)
    {
      if !likelihoodKnown {
        logLikelihood := computed;
        likelihoodKnown := true;
      }
      r := logLikelihood;
    }

    /** `makeDirty`: forget the cached likelihood. */
    method MakeDirty()
      requires Valid()
      modifies this
      ensures Valid() && !likelihoodKnown
      ensures logLikelihood == old(logLikelihood)
      ensures storedLogLikelihood == old(storedLogLikelihood) && storedLikelihoodKnown == old(storedLikelihoodKnown)
    {
      likelihoodKnown := false;
    }

    /** `handleModelChangedEvent`: a model the likelihood depends on changed. */
    method HandleModelChangedEvent()
      requires Valid()
      modifies this
      ensures Valid() && !likelihoodKnown
      ensures logLikelihood == old(logLikelihood)
      ensures storedLogLikelihood == old(storedLogLikelihood) && storedLikelihoodKnown == old(storedLikelihoodKnown)
    {
      likelihoodKnown := false;
    }

    /** `storeState`: copy the states, element by element, and the cache into the stored fields. */
    method StoreState()
      requires Valid()
      modifies this, storedStates
      ensures Valid()
      ensures storedStates[..] == states[..] == old(states[..])
      ensures storedLogLikelihood == logLikelihood == old(logLikelihood)
      ensures storedLikelihoodKnown == likelihoodKnown == old(likelihoodKnown)
    {
      storedLikelihoodKnown := likelihoodKnown;
      storedLogLikelihood := logLikelihood;
      forall i | 0 <= i < states.Length {
        storedStates[i] := states[i];
      }
    }

    /** `restoreState`: copy the stored fields back. */
    method RestoreState()
      requires Valid()
      modifies this, states
      ensures Valid()
      ensures states[..] == storedStates[..] == old(storedStates[..])
      ensures logLikelihood == storedLogLikelihood == old(storedLogLikelihood)
      ensures likelihoodKnown == storedLikelihoodKnown == old(storedLikelihoodKnown)
    {
      likelihoodKnown := storedLikelihoodKnown;
      logLikelihood := storedLogLikelihood;
      forall i | 0 <= i < storedStates.Length {
        states[i] := storedStates[i];
      }
    }
  }

  /**
   * Storing, then changing a slot, then restoring brings back the states and
   * the cache as they were: the stored copy is not an alias of the states.
   */
  method StoreEditRestore(l: CophylogenyLikelihood, node: nat, host: Option<nat>)
    requires l.Valid() && node < l.states.Length
    requires host.Some? ==> host.value < l.hostCount
    modifies l, l.states, l.storedStates
    ensures l.Valid()
    ensures l.states[..] == old(l.states[..])
    ensures l.logLikelihood == old(l.logLikelihood) && l.likelihoodKnown == old(l.likelihoodKnown)
  {
    l.StoreState();
    l.SetStatesForNode(node, host);
    l.RestoreState();
  }

  /** The decimal digits of `n`, most significant first, as `Integer.toString` writes them. */
  function Digits(n: nat): (r: string)
    ensures |r| > 0 && forall i :: 0 <= i < |r| ==> '0' <= r[i] <= '9'
    decreases n
  {
    if n < 10 then [DigitChar(n)] else Digits(n / 10) + [DigitChar(n % 10)]
  }

  function DigitChar(d: nat): (c: char)
    requires d < 10
    ensures '0' <= c <= '9' && c as int - '0' as int == d
  {
    (d + '0' as int) as char
  }

  /** `NR.formatTrait`: "-1" for a null host, the decimal host number otherwise. */
  function FormatTrait(host: Option<nat>): (r: string)
    ensures host.None? ==> r == "-1"
    ensures host.Some? ==> r == Digits(host.value)
  {
    match host
    case None => "-1"
    case Some(h) => Digits(h)
  }

  /** The value of a string of decimal digits. */
  function DigitsValue(s: string): nat
    requires forall i :: 0 <= i < |s| ==> '0' <= s[i] <= '9'
  {
    if |s| == 0 then 0
    else DigitsValue(s[..|s| - 1]) * 10 + (s[|s| - 1] as int - '0' as int)
  }

  /** `Integer.parseInt` on what `formatTrait` writes: an optional minus sign and digits. */
  function ParseInt(s: string): Option<int>
  {
    if |s| > 0 && s[0] == '-' && |s| > 1 && forall i :: 1 <= i < |s| ==> '0' <= s[i] <= '9' then
      Some(-(DigitsValue(s[1..]) as int))
    else if |s| > 0 && forall i :: 0 <= i < |s| ==> '0' <= s[i] <= '9' then
      Some(DigitsValue(s))
    else None
  }

  lemma {:induction false} DigitsRoundTrip(n: nat)
    ensures DigitsValue(Digits(n)) == n
    decreases n
  {
    if n >= 10 {
      DigitsRoundTrip(n / 10);
      var s := Digits(n);
      assert s[..|s| - 1] == Digits(n / 10);
    }
  }

  /** Parsing a formatted trait gives back the state array entry of that host. */
  lemma {:induction false} FormatTraitParses(host: Option<nat>)
    ensures ParseInt(FormatTrait(host)) == Some(Encode(host))
  {
    match host
    case None =>
      assert FormatTrait(host)[1..] == "1";
      assert DigitsValue("1") == DigitsValue("") * 10 + 1;
    case Some(h) =>
      DigitsRoundTrip(h);
  }
}
