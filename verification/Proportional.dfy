/** Choosing an edge with probability proportional to its trust (wsn/common/trust/choose/proportional). */
module Proportional {
  import opened Common
  import opened RealSums
  import opened RandomHelpers
  import opened EdgeTable
  import opened Choose

  /** How much of the raw range the normalised trust v / sum is worth, before truncation. */
  ghost function Weight(v: real, sum: real): real
    requires sum != 0.0
  {
    Times(Quotient(v, sum), RAND_MAX as real)
  }

  ghost function Weights(values: seq<real>, sum: real): (r: seq<real>)
    requires sum != 0.0
    ensures |r| == |values| && forall i :: 0 <= i < |r| ==> r[i] == Weight(values[i], sum)
  {
    seq(|values|, i requires 0 <= i < |values| => Weight(values[i], sum))
  }

  /** The truncated weights: how many raw values each candidate gets. */
  ghost function Shares(weights: seq<real>): (r: seq<nat>)
    requires NonNegative(weights)
    ensures |r| == |weights| && forall i :: 0 <= i < |r| ==> r[i] == weights[i].Floor
  {
    seq(|weights|, i requires 0 <= i < |weights| => weights[i].Floor)
  }

  function Total(shares: seq<nat>): nat {
    if |shares| == 0 then 0 else Total(shares[..|shares| - 1]) + shares[|shares| - 1]
  }

  lemma TotalStep(shares: seq<nat>, k: nat)
    requires k < |shares|
    ensures Total(shares[..k + 1]) == Total(shares[..k]) + shares[k]
  {
    assert shares[..k + 1][..k] == shares[..k];
  }

  lemma WeightNonNegative(v: real, sum: real)
    requires v >= 0.0 && sum > 0.0
    ensures Weight(v, sum) >= 0.0
  {
    QuotientDef(v, sum);
    QuotientNonNegative(v, sum);
    TimesNonNegative(Quotient(v, sum), RAND_MAX as real);
  }

  lemma QuotientNonNegative(v: real, sum: real)
    requires v >= 0.0 && sum > 0.0
    ensures v / sum >= 0.0
  {
  }

  lemma DivisionAdds(v: real, w: real, sum: real)
    requires sum != 0.0
    ensures (v + w) / sum == v / sum + w / sum
  {
    var a, b := v / sum, w / sum;
    assert (a + b) * sum == a * sum + b * sum == v + w;
  }

  lemma WeightAdds(v: real, w: real, sum: real)
    requires sum != 0.0
    ensures Weight(v + w, sum) == Weight(v, sum) + Weight(w, sum)
  {
    QuotientDef(v, sum);
    QuotientDef(w, sum);
    QuotientDef(v + w, sum);
    DivisionAdds(v, w, sum);
    TimesSum(Quotient(v, sum), Quotient(w, sum), RAND_MAX as real);
  }

  lemma {:induction false} WeightsSum(values: seq<real>, sum: real)
    requires sum != 0.0
    ensures Sum(Weights(values, sum)) == Weight(Sum(values), sum)
  {
    if |values| == 0 {
      QuotientDef(0.0, sum);
      TimesZero(RAND_MAX as real);
    } else {
      var k := |values| - 1;
      WeightsSum(values[..k], sum);
      WeightAdds(Sum(values[..k]), values[k], sum);
      assert Weights(values, sum)[..k] == Weights(values[..k], sum);
    }
  }

  lemma WeightsNonNegative(values: seq<real>, sum: real)
    requires NonNegative(values) && sum > 0.0
    ensures NonNegative(Weights(values, sum))
  {
    forall i | 0 <= i < |values|
      ensures Weight(values[i], sum) >= 0.0
    {
      WeightNonNegative(values[i], sum);
    }
  }

  /** Truncation loses less than one raw value per candidate and never gains any. */
  lemma {:induction false} SharesNearWeights(weights: seq<real>)
    requires NonNegative(weights)
    ensures Total(Shares(weights)) as real <= Sum(weights)
    ensures |weights| > 0 ==> Sum(weights) - |weights| as real < Total(Shares(weights)) as real
  {
    if |weights| > 0 {
      var k := |weights| - 1;
      SharesNearWeights(weights[..k]);
      assert Shares(weights)[..k] == Shares(weights[..k]);
    }
  }

  lemma SelfQuotient(x: real)
    requires x != 0.0
    ensures x / x == 1.0
  {
    var q := x / x;
    assert q * x == x;
    assert (q - 1.0) * x == 0.0;
  }

  /**
   The shares fit the raw range, so the 16-bit running sum cannot overflow, and they leave fewer
   raw values below RAND_MAX uncovered than there are candidates.
   */
  lemma SharesFillRange(values: seq<real>)
    requires NonNegative(values) && Sum(values) > 0.0
    ensures NonNegative(Weights(values, Sum(values)))
    ensures Total(Shares(Weights(values, Sum(values)))) <= RAND_MAX
    ensures RAND_MAX - Total(Shares(Weights(values, Sum(values)))) < |values|
  {
    var sum := Sum(values);
    WeightsNonNegative(values, sum);
    WeightsSum(values, sum);
    SharesNearWeights(Weights(values, sum));
    QuotientDef(sum, sum);
    SelfQuotient(sum);
    TimesOne(RAND_MAX as real);
  }

  lemma {:induction false} TotalMonotone(shares: seq<nat>, i: nat, j: nat)
    requires i <= j <= |shares|
    ensures Total(shares[..i]) <= Total(shares[..j])
    decreases j
  {
    if i < j {
      TotalMonotone(shares, i, j - 1);
      TotalStep(shares, j - 1);
    }
  }

  /** The candidate whose range [Total(shares[..i]), Total(shares[..i + 1])) holds the raw value. */
  predicate Owns(shares: seq<nat>, i: int, rnd: nat) {
    0 <= i < |shares| && Total(shares[..i]) <= rnd < Total(shares[..i + 1])
  }

  /** Ranges are disjoint: a raw value has at most one owner. */
  lemma OneOwner(shares: seq<nat>, i: nat, j: nat, rnd: nat)
    requires Owns(shares, i, rnd) && Owns(shares, j, rnd)
    ensures i == j
  {
    if i < j {
      TotalMonotone(shares, i + 1, j);
    } else if j < i {
      TotalMonotone(shares, j + 1, i);
    }
  }

  /** A raw value has an owner exactly when it is below the total. */
  lemma {:induction false} OwnedIffCovered(shares: seq<nat>, rnd: nat)
    ensures (exists i :: Owns(shares, i, rnd)) <==> rnd < Total(shares)
  {
    assert shares[..|shares|] == shares;
    if exists i :: Owns(shares, i, rnd) {
      var i :| Owns(shares, i, rnd);
      TotalMonotone(shares, i + 1, |shares|);
    }
    if rnd < Total(shares) {
      FindOwner(shares, |shares|, rnd);
    }
  }

  lemma {:induction false} FindOwner(shares: seq<nat>, k: nat, rnd: nat)
    requires k <= |shares| && rnd < Total(shares[..k])
    ensures exists i :: Owns(shares, i, rnd)
    decreases k
  {
    if k > 0 {
      TotalStep(shares, k - 1);
      if rnd < Total(shares[..k - 1]) {
        FindOwner(shares, k - 1, rnd);
      } else {
        assert Owns(shares, k - 1, rnd);
      }
    }
  }

  /** The largest raw value is never covered, so some draw returns no edge however trust is spread. */
  lemma LargestIsUncovered(values: seq<real>, i: int)
    requires NonNegative(values) && Sum(values) > 0.0
    ensures NonNegative(Weights(values, Sum(values)))
    ensures !Owns(Shares(Weights(values, Sum(values))), i, RAND_MAX)
  {
    SharesFillRange(values);
    var shares := Shares(Weights(values, Sum(values)));
    if 0 <= i < |shares| {
      TotalMonotone(shares, i + 1, |shares|);
      assert shares[..|shares|] == shares;
    }
  }

  /** How many raw values below `bound` candidate i owns. */
  ghost function OwnedBelow(shares: seq<nat>, i: nat, bound: nat): nat {
    if bound == 0 then 0
    else OwnedBelow(shares, i, bound - 1) + (if Owns(shares, i, bound - 1) then 1 else 0)
  }

  lemma {:induction false} OwnedBelowIs(shares: seq<nat>, i: nat, bound: nat)
    requires i < |shares|
    ensures OwnedBelow(shares, i, bound) ==
              if bound <= Total(shares[..i]) then 0
              else if bound <= Total(shares[..i + 1]) then bound - Total(shares[..i])
              else shares[i]
    decreases bound
  {
    TotalStep(shares, i);
    if bound > 0 {
      OwnedBelowIs(shares, i, bound - 1);
    }
  }

  /** Of the raw values, which are those below `raw`, candidate i owns exactly floor(p_i * RAND_MAX). */
  lemma OwnsItsShare(values: seq<real>, i: nat, raw: nat)
    requires NonNegative(values) && Sum(values) > 0.0 && i < |values| && raw == RAND_MAX + 1
    ensures NonNegative(Weights(values, Sum(values)))
    ensures OwnedBelow(Shares(Weights(values, Sum(values))), i, raw) == Weight(values[i], Sum(values)).Floor
  {
    SharesFillRange(values);
    OwnsAll(Shares(Weights(values, Sum(values))), i, raw);
  }

  lemma OwnsAll(shares: seq<nat>, i: nat, raw: nat)
    requires i < |shares| && Total(shares) <= raw
    ensures OwnedBelow(shares, i, raw) == shares[i]
  {
    OwnedBelowIs(shares, i, raw);
    TotalStep(shares, i);
    TotalMonotone(shares, i + 1, |shares|);
    assert shares[..|shares|] == shares;
  }

  /** The policy as a relation on candidates and their trust: the owner of the draw, or nothing in the tail. */
  ghost predicate OwnerOf(idx: seq<nat>, values: seq<real>, rnd: nat, r: Option<nat>) {
    && |idx| == |values| && Sum(values) > 0.0 && NonNegative(Weights(values, Sum(values)))
    && var shares := Shares(Weights(values, Sum(values)));
    && (r.Some? ==> exists i :: Owns(shares, i, rnd) && r.value == idx[i])
    && (r.None? <==> rnd >= Total(shares))
  }

  /** Every raw value has exactly one result. */
  lemma OwnerIsUnique(idx: seq<nat>, values: seq<real>, rnd: nat, r: Option<nat>, r': Option<nat>)
    requires OwnerOf(idx, values, rnd, r) && OwnerOf(idx, values, rnd, r')
    ensures r == r'
  {
    if r.Some? {
      var shares := Shares(Weights(values, Sum(values)));
      var i :| Owns(shares, i, rnd) && r.value == idx[i];
      var j :| Owns(shares, j, rnd) && r'.value == idx[j];
      OneOwner(shares, i, j, rnd);
    }
  }

  /** Distinct candidates are returned for exactly the raw values they own. */
  lemma ReturnedIfOwned(idx: seq<nat>, values: seq<real>, i: nat, rnd: nat)
    requires Increasing(idx) && |idx| == |values| && i < |idx| && NonNegative(values) && Sum(values) > 0.0
    ensures NonNegative(Weights(values, Sum(values)))
    ensures OwnerOf(idx, values, rnd, Some(idx[i])) <==> Owns(Shares(Weights(values, Sum(values))), i, rnd)
  {
    WeightsNonNegative(values, Sum(values));
    var shares := Shares(Weights(values, Sum(values)));
    OwnedIffCovered(shares, rnd);
    if OwnerOf(idx, values, rnd, Some(idx[i])) {
      var j :| Owns(shares, j, rnd) && idx[i] == idx[j];
      assert !(i < j) && !(j < i);
    }
  }

  /** For how many raw values below `bound` the policy returns e. */
  ghost function RawsReturning(idx: seq<nat>, values: seq<real>, e: nat, bound: nat): nat {
    if bound == 0 then 0
    else RawsReturning(idx, values, e, bound - 1) + (if OwnerOf(idx, values, bound - 1, Some(e)) then 1 else 0)
  }

  lemma {:induction false} RawsAreOwned(idx: seq<nat>, values: seq<real>, i: nat, bound: nat)
    requires Increasing(idx) && |idx| == |values| && i < |idx| && NonNegative(values) && Sum(values) > 0.0
    ensures NonNegative(Weights(values, Sum(values)))
    ensures RawsReturning(idx, values, idx[i], bound) == OwnedBelow(Shares(Weights(values, Sum(values))), i, bound)
    decreases bound
  {
    WeightsNonNegative(values, Sum(values));
    if bound > 0 {
      RawsAreOwned(idx, values, i, bound - 1);
      ReturnedIfOwned(idx, values, i, bound - 1);
    }
  }

  /**
   Of the raw values, which are those below `raw`, the policy returns each eligible edge for exactly
   floor(p * RAND_MAX), where p is the edge's part of all trust.
   */
  lemma ReturnedForItsShare(edges: seq<Edge>, name: string, trust: Trust, i: nat, raw: nat)
    requires TrustNonNegative(edges, name, trust) && Sum(Scores(edges, name, trust)) > 0.0
    requires i < |Eligible(edges, name)| && raw == RAND_MAX + 1
    ensures |Scores(edges, name, trust)| == |Eligible(edges, name)| && Eligible(edges, name)[i] < |edges|
    ensures RawsReturning(Eligible(edges, name), Scores(edges, name, trust), Eligible(edges, name)[i], raw) ==
            Weight(TrustIn(trust, edges[Eligible(edges, name)[i]], name), Sum(Scores(edges, name, trust))).Floor
  {
    var idx, values := Eligible(edges, name), Scores(edges, name, trust);
    CandidatesFound(edges, name, trust);
    EligibleExact(edges, name, |edges|);
    ScoresExact(edges, name, trust, |edges|);
    RawsAreOwned(idx, values, i, raw);
    OwnsItsShare(values, i, raw);
  }

  /** The loop that normalises in place and fills the boundaries. */
  method Normalise(values: array<real>, boundaries: array<nat>, len: nat, sum: real)
    requires len <= values.Length == boundaries.Length
    requires sum > 0.0 && NonNegative(values[..len])
    modifies values, boundaries
    ensures NonNegative(Weights(old(values[..len]), sum))
    ensures boundaries[..len] == Shares(Weights(old(values[..len]), sum))
  {
    ghost var v := values[..len];
    WeightsNonNegative(v, sum);
    ghost var shares := Shares(Weights(v, sum));
    for i := 0 to len
      invariant boundaries[..i] == shares[..i]
      invariant forall k :: i <= k < len ==> values[k] == v[k]
    {
      QuotientDef(v[i], sum);
      values[i] := values[i] / sum;
      TimesDef(values[i], RAND_MAX as real);
      boundaries[i] := (values[i] * RAND_MAX as real).Floor;
      assert boundaries[i] == shares[i];
    }
  }

  /** The search for the range that holds the draw; `previous` is a 16-bit accumulator. */
  method FindRange(candidates: array<nat>, boundaries: array<nat>, len: nat, rnd: nat) returns (chosen: Option<nat>)
    requires len <= candidates.Length == boundaries.Length
    requires Total(boundaries[..len]) <= RAND_MAX
    ensures chosen.Some? ==>
              exists i :: Owns(boundaries[..len], i, rnd) && chosen.value == candidates[i]
    ensures chosen.None? <==> rnd >= Total(boundaries[..len])
  {
    chosen := None;
    var previous := 0;
    ghost var shares := boundaries[..len];
    assert shares[..len] == shares;
    var i := 0;
    while i != len
      invariant i <= len && previous == Total(shares[..i]) <= rnd
      decreases len - i
    {
      TotalStep(shares, i);
      TotalMonotone(shares, i + 1, len);
      if previous <= rnd < previous + boundaries[i] {
        assert Owns(shares, i, rnd);
        return Some(candidates[i]);
      }
      previous := (previous + boundaries[i]) % 65536;
      i := i + 1;
    }
  }

  /** From the collected candidates on. */
  method Select(
    candidates: array<nat>, values: array<real>, boundaries: array<nat>, len: nat, sum: real, rnd: nat)
    returns (r: Option<nat>)
    requires 0 < len <= candidates.Length == values.Length == boundaries.Length && candidates != boundaries
    requires NonNegative(values[..len]) && sum == Sum(values[..len]) > 0.0
    modifies values, boundaries
    ensures OwnerOf(old(candidates[..len]), old(values[..len]), rnd, r)
  {
    SharesFillRange(values[..len]);
    Normalise(values, boundaries, len, sum);
    r := FindRange(candidates, boundaries, len, rnd);
  }

  /**
   choose_edge of the proportional policy. With candidates whose trust is zero throughout it divides
   by zero and converts the outcome to an integer, which C leaves undefined; the result says so.
   */
  method ChooseProportional(cfg: Config, t: Table, name: string, trust: Trust, rnd: nat)
    returns (r: Option<nat>, defined: bool)
    requires TableOk(cfg, t) && cfg.numEdges < 256 && TrustNonNegative(t.edges, name, trust)
    ensures defined <==> Eligible(t.edges, name) == [] || Sum(Scores(t.edges, name, trust)) > 0.0
    ensures Eligible(t.edges, name) == [] ==> r.None?
    ensures defined && Eligible(t.edges, name) != [] ==>
              OwnerOf(Eligible(t.edges, name), Scores(t.edges, name, trust), rnd, r)
  {
    var candidates := new nat[cfg.numEdges];
    var values := new real[cfg.numEdges];
    var boundaries := new nat[cfg.numEdges];
    var len, _, sum := CollectTrust(cfg, t, name, trust, candidates, values);
    CandidatesFound(t.edges, name, trust);
    SumNonNegative(values[..len]);
    r, defined := None, len == 0 || sum != 0.0;
    if len > 0 && defined {
      r := Select(candidates, values, boundaries, len, sum, rnd);
    }
  }
}
