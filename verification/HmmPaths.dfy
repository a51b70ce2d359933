/**
 The reference semantics of the hidden Markov trust filter (wsn/common/trust/hmm.c): the probability
 of an observation sequence is a sum over all hidden-state paths, and the unscaled forward vector
 computes it.
 */
module HmmPaths {
  import opened Common
  import opened RealSums

  /**
   The parameters of a model. Pi, A and B are the names the header gives to the initial,
   transition and emission probabilities.
   */
  datatype Params = Params(initial: seq<real>, trans: seq<seq<real>>, emission: seq<seq<real>>) {

    function States(): nat { |initial| }

    function Pi(s: nat): real { if s < |initial| then initial[s] else 0.0 }

    function A(from: nat, to: nat): real {
      if from < |trans| && to < |trans[from]| then trans[from][to] else 0.0
    }

    function B(s: nat, o: nat): real {
      if s < |emission| && o < |emission[s]| then emission[s][o] else 0.0
    }

    predicate WellFormed(numObs: nat) {
      && |initial| > 0
      && |trans| == |initial| == |emission|
      && (forall s :: 0 <= s < |trans| ==> |trans[s]| == |initial|)
      && (forall s :: 0 <= s < |emission| ==> |emission[s]| == numObs)
    }

    ghost predicate AllNonNegative() {
      && (forall s: nat :: Pi(s) >= 0.0)
      && (forall s: nat, s': nat :: A(s, s') >= 0.0)
      && (forall s: nat, o: nat :: B(s, o) >= 0.0)
    }
  }

  // ---------------------------------------------------------------------------
  // Reference: the probability of an observation sequence is a sum over paths.
  // ---------------------------------------------------------------------------

  ghost function PathProbability(h: Params, p: seq<nat>, obs: seq<nat>): real
    requires |p| == |obs| > 0
  {
    var k := |p| - 1;
    if k == 0 then Times(h.Pi(p[0]), h.B(p[0], obs[0]))
    else Times(Times(PathProbability(h, p[..k], obs[..k]), h.A(p[k - 1], p[k])), h.B(p[k], obs[k]))
  }

  predicate AllOfLength(ps: seq<seq<nat>>, length: nat) {
    forall i :: 0 <= i < |ps| ==> |ps[i]| == length
  }

  ghost function Probabilities(h: Params, ps: seq<seq<nat>>, obs: seq<nat>): (r: seq<real>)
    requires |obs| > 0 && AllOfLength(ps, |obs|)
    ensures |r| == |ps| && forall i :: 0 <= i < |r| ==> r[i] == PathProbability(h, ps[i], obs)
  {
    seq(|ps|, i requires 0 <= i < |ps| => PathProbability(h, ps[i], obs))
  }

  ghost function PathSum(h: Params, ps: seq<seq<nat>>, obs: seq<nat>): real
    requires |obs| > 0 && AllOfLength(ps, |obs|)
  {
    Sum(Probabilities(h, ps, obs))
  }

  function Extended(ps: seq<seq<nat>>, s: nat): (r: seq<seq<nat>>)
    ensures |r| == |ps| && forall i :: 0 <= i < |ps| ==> r[i] == ps[i] + [s]
  {
    seq(|ps|, i requires 0 <= i < |ps| => ps[i] + [s])
  }

  function Flatten(pss: seq<seq<seq<nat>>>): seq<seq<nat>> {
    if |pss| == 0 then [] else Flatten(pss[..|pss| - 1]) + pss[|pss| - 1]
  }

  /** Entry `b` holds paths of `length` states, and all of them end in `b`. */
  ghost predicate GroupedByEnd(pss: seq<seq<seq<nat>>>, length: nat) {
    forall b, i :: 0 <= b < |pss| && 0 <= i < |pss[b]| ==>
      0 < |pss[b][i]| == length && pss[b][i][length - 1] == b
  }

  /** Entry `s` lists every path of `length` states that ends in `s`. */
  function PathsByEnd(states: nat, length: nat): (r: seq<seq<seq<nat>>>)
    requires 0 < length
    ensures |r| == states
  {
    if length == 1 then seq(states, s requires 0 <= s => [[s]])
    else var all := Flatten(PathsByEnd(states, length - 1)); seq(states, s requires 0 <= s => Extended(all, s))
  }

  function AllPaths(states: nat, length: nat): seq<seq<nat>>
    requires 0 < length
  {
    Flatten(PathsByEnd(states, length))
  }

  lemma {:induction false} FlattenLengths(pss: seq<seq<seq<nat>>>, length: nat)
    requires GroupedByEnd(pss, length)
    ensures AllOfLength(Flatten(pss), length)
  {
    if |pss| > 0 {
      FlattenLengths(pss[..|pss| - 1], length);
    }
  }

  lemma {:induction false} PathsByEndGrouped(states: nat, length: nat)
    requires 0 < length
    ensures GroupedByEnd(PathsByEnd(states, length), length)
    ensures AllOfLength(AllPaths(states, length), length)
  {
    if length > 1 {
      PathsByEndGrouped(states, length - 1);
    }
    FlattenLengths(PathsByEnd(states, length), length);
  }

  /** The probability of seeing `obs`: the sum, over all hidden-state paths, of the path's probability. */
  ghost function ObservationsProbability(h: Params, obs: seq<nat>): real
    requires |obs| > 0
  {
    PathsByEndGrouped(h.States(), |obs|);
    PathSum(h, AllPaths(h.States(), |obs|), obs)
  }

  // The enumeration of paths is exactly the set of paths: nothing missing, nothing twice.

  predicate Below(p: seq<nat>, states: nat) {
    forall t :: 0 <= t < |p| ==> p[t] < states
  }

  lemma {:induction false} FlattenMembers(pss: seq<seq<seq<nat>>>, p: seq<nat>)
    ensures p in Flatten(pss) <==> exists b :: 0 <= b < |pss| && p in pss[b]
  {
    if |pss| > 0 {
      var init := pss[..|pss| - 1];
      FlattenMembers(init, p);
      if b :| 0 <= b < |init| && p in init[b] {
        assert p in pss[b];
      }
    }
  }

  lemma {:induction false} FlattenDistinct(pss: seq<seq<seq<nat>>>, length: nat)
    requires GroupedByEnd(pss, length)
    requires forall b :: 0 <= b < |pss| ==> Distinct(pss[b])
    ensures Distinct(Flatten(pss))
  {
    if |pss| > 0 {
      var init, last := pss[..|pss| - 1], pss[|pss| - 1];
      FlattenDistinct(init, length);
      forall p | p in Flatten(init)
        ensures p !in last
      {
        FlattenMembers(init, p);
      }
      var all := Flatten(pss);
      forall i, j | 0 <= i < j < |all|
        ensures all[i] != all[j]
      {
        if i < |Flatten(init)| <= j {
          assert all[i] in Flatten(init) && all[j] in last;
        }
      }
    }
  }

  lemma {:induction false} PathsByEndComplete(states: nat, length: nat)
    requires 0 < length
    ensures forall s :: 0 <= s < states ==> Distinct(PathsByEnd(states, length)[s])
    ensures forall s, p :: 0 <= s < states ==>
              (p in PathsByEnd(states, length)[s] <==> |p| == length && Below(p, states) && p[length - 1] == s)
    decreases length, 0
  {
    if length == 1 {
      forall s, p: seq<nat> | 0 <= s < states && |p| == 1 && p[0] == s
        ensures p in PathsByEnd(states, length)[s]
      {
        assert p == [s];
      }
    } else {
      AllPathsComplete(states, length - 1);
      var all := AllPaths(states, length - 1);
      forall s | 0 <= s < states
        ensures Distinct(Extended(all, s))
        ensures forall p :: p in Extended(all, s) <==> |p| == length && Below(p, states) && p[length - 1] == s
      {
        ExtendedComplete(all, states, length, s);
      }
    }
  }

  lemma {:induction false} AllPathsComplete(states: nat, length: nat)
    requires 0 < length
    ensures Distinct(AllPaths(states, length))
    ensures forall p :: p in AllPaths(states, length) <==> |p| == length && Below(p, states)
    decreases length, 1
  {
    var pss := PathsByEnd(states, length);
    PathsByEndComplete(states, length);
    PathsByEndGrouped(states, length);
    FlattenDistinct(pss, length);
    forall p
      ensures p in Flatten(pss) <==> |p| == length && Below(p, states)
    {
      FlattenMembers(pss, p);
      if |p| == length && Below(p, states) {
        assert p in pss[p[length - 1]];
      }
    }
  }

  lemma ExtendedComplete(ps: seq<seq<nat>>, states: nat, length: nat, s: nat)
    requires s < states && 1 < length && Distinct(ps)
    requires forall p :: p in ps <==> |p| == length - 1 && Below(p, states)
    ensures Distinct(Extended(ps, s))
    ensures forall p :: p in Extended(ps, s) <==> |p| == length && Below(p, states) && p[length - 1] == s
  {
    var all := Extended(ps, s);
    forall i, j | 0 <= i < j < |all|
      ensures all[i] != all[j]
    {
      assert ps[i] in ps && ps[j] in ps;
      assert all[i][..length - 1] == ps[i] && all[j][..length - 1] == ps[j];
    }
    forall p | |p| == length && Below(p, states) && p[length - 1] == s
      ensures p in all
    {
      var q := p[..length - 1];
      assert Below(q, states) && q in ps;
      var i :| 0 <= i < |ps| && ps[i] == q;
      assert all[i] == q + [s] == p;
    }
    forall p | p in all
      ensures |p| == length && Below(p, states) && p[length - 1] == s
    {
      var i :| 0 <= i < |all| && all[i] == p;
      assert ps[i] in ps;
    }
  }

  // ---------------------------------------------------------------------------
  // The unscaled forward vector, and its meaning as a sum over paths.
  // ---------------------------------------------------------------------------

  /** What each source state s2 passes on to s1: v[s2] * A(s2, s1). */
  ghost function Inflows(h: Params, v: seq<real>, s1: nat): (r: seq<real>)
    ensures |r| == |v| && forall s2 :: 0 <= s2 < |v| ==> r[s2] == Times(v[s2], h.A(s2, s1))
  {
    seq(|v|, s2 requires 0 <= s2 < |v| => Times(v[s2], h.A(s2, s1)))
  }

  ghost predicate IsInflow(h: Params, v: seq<real>, s1: nat, z: real) {
    forall k :: Unfolding(k) ==> z == Sum(Inflows(h, v, s1))
  }

  /** The total inflow into s1; its meaning is available through InflowDef. */
  ghost function Inflow(h: Params, v: seq<real>, s1: nat): real {
    assert IsInflow(h, v, s1, Sum(Inflows(h, v, s1)));
    var z :| IsInflow(h, v, s1, z);
    z
  }

  lemma InflowDef(h: Params, v: seq<real>, s1: nat)
    ensures Inflow(h, v, s1) == Sum(Inflows(h, v, s1))
  {
    assert Unfolding(0);
  }

  ghost function FirstVector(h: Params, o: nat): (r: seq<real>)
    ensures |r| == h.States() && forall s :: 0 <= s < |r| ==> r[s] == Times(h.Pi(s), h.B(s, o))
  {
    seq(h.States(), s requires 0 <= s => Times(h.Pi(s), h.B(s, o)))
  }

  ghost function NextVector(h: Params, v: seq<real>, o: nat): (r: seq<real>)
    ensures |r| == |v| && forall s :: 0 <= s < |r| ==> r[s] == Times(Inflow(h, v, s), h.B(s, o))
  {
    seq(|v|, s requires 0 <= s => Times(Inflow(h, v, s), h.B(s, o)))
  }

  ghost function Forward(h: Params, obs: seq<nat>): (r: seq<real>)
    requires |obs| > 0
    ensures |r| == h.States()
  {
    var k := |obs| - 1;
    if k == 0 then FirstVector(h, obs[0])
    else NextVector(h, Forward(h, obs[..k]), obs[k])
  }

  lemma PathSumConcat(h: Params, a: seq<seq<nat>>, b: seq<seq<nat>>, obs: seq<nat>)
    requires |obs| > 0 && AllOfLength(a, |obs|) && AllOfLength(b, |obs|)
    ensures PathSum(h, a + b, obs) == PathSum(h, a, obs) + PathSum(h, b, obs)
  {
    assert Probabilities(h, a + b, obs) == Probabilities(h, a, obs) + Probabilities(h, b, obs);
    SumConcat(Probabilities(h, a, obs), Probabilities(h, b, obs));
  }

  lemma {:induction false} PathProbabilitySnoc(h: Params, p: seq<nat>, s: nat, obs: seq<nat>)
    requires |p| + 1 == |obs| > 1
    ensures PathProbability(h, p + [s], obs)
         == Times(Times(PathProbability(h, p, obs[..|p|]), h.A(p[|p| - 1], s)), h.B(s, obs[|p|]))
  {
    assert (p + [s])[..|p|] == p;
  }

  /** Extending paths that all end in `from` multiplies their sum by one transition and one emission. */
  lemma PathSumExtended(h: Params, ps: seq<seq<nat>>, from: nat, s: nat, obs: seq<nat>)
    requires |obs| > 1 && AllOfLength(ps, |obs| - 1)
    requires forall i :: 0 <= i < |ps| ==> ps[i][|obs| - 2] == from
    ensures AllOfLength(Extended(ps, s), |obs|)
    ensures PathSum(h, Extended(ps, s), obs)
         == Times(Times(PathSum(h, ps, obs[..|obs| - 1]), h.A(from, s)), h.B(s, obs[|obs| - 1]))
  {
    var k := |obs| - 1;
    var v := Probabilities(h, ps, obs[..k]);
    SumScale(v, h.A(from, s));
    SumScale(Scale(v, h.A(from, s)), h.B(s, obs[k]));
    ProbabilitiesExtended(h, ps, from, s, obs);
  }

  lemma ProbabilitiesExtended(h: Params, ps: seq<seq<nat>>, from: nat, s: nat, obs: seq<nat>)
    requires |obs| > 1 && AllOfLength(ps, |obs| - 1)
    requires forall i :: 0 <= i < |ps| ==> ps[i][|obs| - 2] == from
    ensures Probabilities(h, Extended(ps, s), obs)
         == Scale(Scale(Probabilities(h, ps, obs[..|obs| - 1]), h.A(from, s)), h.B(s, obs[|obs| - 1]))
  {
    var k := |obs| - 1;
    var w := Scale(Scale(Probabilities(h, ps, obs[..k]), h.A(from, s)), h.B(s, obs[k]));
    var u := Probabilities(h, Extended(ps, s), obs);
    forall i | 0 <= i < |ps|
      ensures u[i] == w[i]
    {
      PathProbabilitySnoc(h, ps[i], s, obs);
    }
  }

  /** Adding the paths in `to`, which all end in `b`, adds their sum times A(b, s) times B(s, o). */
  lemma PathSumAddSource(h: Params, below: seq<seq<nat>>, to: seq<seq<nat>>, b: nat, s: nat, obs: seq<nat>)
    requires |obs| > 1 && AllOfLength(below, |obs| - 1) && AllOfLength(to, |obs| - 1)
    requires forall i :: 0 <= i < |to| ==> to[i][|obs| - 2] == b
    ensures PathSum(h, Extended(below + to, s), obs)
         == PathSum(h, Extended(below, s), obs)
          + Times(Times(PathSum(h, to, obs[..|obs| - 1]), h.A(b, s)), h.B(s, obs[|obs| - 1]))
  {
    assert Extended(below + to, s) == Extended(below, s) + Extended(to, s);
    PathSumConcat(h, Extended(below, s), Extended(to, s), obs);
    PathSumExtended(h, to, b, s, obs);
  }

  /** f[b] is the total probability of the paths in group b. */
  ghost predicate GroupTotals(h: Params, pss: seq<seq<seq<nat>>>, obs: seq<nat>, f: seq<real>) {
    && |obs| > 0 && |f| == |pss| && GroupedByEnd(pss, |obs|)
    && forall b :: 0 <= b < |pss| ==> AllOfLength(pss[b], |obs|) && PathSum(h, pss[b], obs) == f[b]
  }

  lemma {:induction false} FlattenTotal(h: Params, pss: seq<seq<seq<nat>>>, obs: seq<nat>, f: seq<real>)
    requires GroupTotals(h, pss, obs, f)
    ensures AllOfLength(Flatten(pss), |obs|) && PathSum(h, Flatten(pss), obs) == Sum(f)
  {
    FlattenLengths(pss, |obs|);
    if |pss| > 0 {
      var k := |pss| - 1;
      FlattenTotal(h, pss[..k], obs, f[..k]);
      PathSumConcat(h, Flatten(pss[..k]), pss[k], obs);
    }
  }

  /** Extending the paths of the first `b` groups by `s` yields the inflow from those groups, times the emission. */
  lemma {:induction false} FlattenExtendedTotal(
    h: Params, pss: seq<seq<seq<nat>>>, b: nat, s: nat, obs: seq<nat>, f: seq<real>)
    requires |obs| > 1 && GroupTotals(h, pss, obs[..|obs| - 1], f) && b <= |pss|
    ensures AllOfLength(Flatten(pss[..b]), |obs| - 1)
    ensures PathSum(h, Extended(Flatten(pss[..b]), s), obs) == Sum(Scale(Inflows(h, f[..b], s), h.B(s, obs[|obs| - 1])))
  {
    FlattenLengths(pss[..b], |obs| - 1);
    if b > 0 {
      FlattenExtendedTotal(h, pss, b - 1, s, obs, f);
      FlattenPrefix(pss, b);
      AddNextGroup(h, Flatten(pss[..b - 1]), pss, b, s, obs, f);
    }
  }

  lemma AddNextGroup(
    h: Params, init: seq<seq<nat>>, pss: seq<seq<seq<nat>>>, b: nat, s: nat, obs: seq<nat>, f: seq<real>)
    requires |obs| > 1 && GroupTotals(h, pss, obs[..|obs| - 1], f) && 0 < b <= |pss| && AllOfLength(init, |obs| - 1)
    requires PathSum(h, Extended(init, s), obs) == Sum(Scale(Inflows(h, f[..b - 1], s), h.B(s, obs[|obs| - 1])))
    ensures AllOfLength(init + pss[b - 1], |obs| - 1)
    ensures PathSum(h, Extended(init + pss[b - 1], s), obs) ==
            Sum(Scale(Inflows(h, f[..b], s), h.B(s, obs[|obs| - 1])))
  {
    GroupAt(h, pss, obs[..|obs| - 1], f, b - 1);
    assert f[..b][..b - 1] == f[..b - 1];
    AddGroup(h, init, pss[b - 1], s, obs, f[..b]);
  }

  lemma FlattenPrefix(pss: seq<seq<seq<nat>>>, b: nat)
    requires 0 < b <= |pss|
    ensures Flatten(pss[..b]) == Flatten(pss[..b - 1]) + pss[b - 1]
  {
    assert pss[..b][..b - 1] == pss[..b - 1];
  }

  lemma GroupAt(h: Params, pss: seq<seq<seq<nat>>>, obs: seq<nat>, f: seq<real>, b: nat)
    requires GroupTotals(h, pss, obs, f) && b < |pss|
    ensures AllOfLength(pss[b], |obs|) && PathSum(h, pss[b], obs) == f[b]
    ensures forall i :: 0 <= i < |pss[b]| ==> pss[b][i][|obs| - 1] == b
  {
  }

  lemma AddGroup(h: Params, init: seq<seq<nat>>, group: seq<seq<nat>>, s: nat, obs: seq<nat>, f: seq<real>)
    requires |obs| > 1 && |f| > 0 && AllOfLength(init, |obs| - 1) && AllOfLength(group, |obs| - 1)
    requires forall i :: 0 <= i < |group| ==> group[i][|obs| - 2] == |f| - 1
    requires PathSum(h, group, obs[..|obs| - 1]) == f[|f| - 1]
    requires PathSum(h, Extended(init, s), obs) == Sum(Scale(Inflows(h, f[..|f| - 1], s), h.B(s, obs[|obs| - 1])))
    ensures PathSum(h, Extended(init + group, s), obs) == Sum(Scale(Inflows(h, f, s), h.B(s, obs[|obs| - 1])))
  {
    PathSumAddSource(h, init, group, |f| - 1, s, obs);
    InflowsSnoc(h, f, s, h.B(s, obs[|obs| - 1]));
  }

  lemma InflowsSnoc(h: Params, f: seq<real>, s: nat, e: real)
    requires |f| > 0
    ensures var k := |f| - 1;
      Sum(Scale(Inflows(h, f, s), e)) == Sum(Scale(Inflows(h, f[..k], s), e)) + Times(Times(f[k], h.A(k, s)), e)
  {
    var k := |f| - 1;
    assert Scale(Inflows(h, f, s), e)[..k] == Scale(Inflows(h, f[..k], s), e);
  }

  /** The components of the forward vector are the total probabilities of the paths by end state. */
  lemma {:induction false} ForwardTotals(h: Params, obs: seq<nat>)
    requires |obs| > 0
    ensures GroupTotals(h, PathsByEnd(h.States(), |obs|), obs, Forward(h, obs))
  {
    PathsByEndGrouped(h.States(), |obs|);
    if |obs| == 1 {
      FirstTotals(h, obs);
    } else {
      var k := |obs| - 1;
      ForwardTotals(h, obs[..k]);
      NextTotals(h, h.States(), obs, Forward(h, obs[..k]));
    }
  }

  lemma FirstTotals(h: Params, obs: seq<nat>)
    requires |obs| == 1
    ensures GroupTotals(h, PathsByEnd(h.States(), 1), obs, FirstVector(h, obs[0]))
  {
    var f := FirstVector(h, obs[0]);
    forall s | 0 <= s < h.States()
      ensures PathSum(h, [[s]], obs) == f[s]
    {
      assert Probabilities(h, [[s]], obs) == [] + [PathProbability(h, [s], obs)];
      SumSnoc([], PathProbability(h, [s], obs));
    }
  }

  lemma NextTotals(h: Params, n: nat, obs: seq<nat>, f: seq<real>)
    requires |obs| > 1 && GroupTotals(h, PathsByEnd(n, |obs| - 1), obs[..|obs| - 1], f)
    ensures GroupTotals(h, PathsByEnd(n, |obs|), obs, NextVector(h, f, obs[|obs| - 1]))
  {
    PathsByEndGrouped(n, |obs|);
    forall s | 0 <= s < n
      ensures AllOfLength(PathsByEnd(n, |obs|)[s], |obs|)
      ensures PathSum(h, PathsByEnd(n, |obs|)[s], obs) == NextVector(h, f, obs[|obs| - 1])[s]
    {
      NextTotal(h, PathsByEnd(n, |obs| - 1), s, obs, f);
    }
  }

  lemma NextTotal(h: Params, pss: seq<seq<seq<nat>>>, s: nat, obs: seq<nat>, f: seq<real>)
    requires |obs| > 1 && GroupTotals(h, pss, obs[..|obs| - 1], f) && s < |pss|
    ensures AllOfLength(Extended(Flatten(pss), s), |obs|)
    ensures PathSum(h, Extended(Flatten(pss), s), obs) == NextVector(h, f, obs[|obs| - 1])[s]
  {
    WholeExtendedTotal(h, pss, s, obs, f);
    InflowTotal(h, f, s, obs[|obs| - 1]);
    ExtendedLengths(Flatten(pss), s, |obs| - 1);
  }

  lemma WholeExtendedTotal(h: Params, pss: seq<seq<seq<nat>>>, s: nat, obs: seq<nat>, f: seq<real>)
    requires |obs| > 1 && GroupTotals(h, pss, obs[..|obs| - 1], f)
    ensures AllOfLength(Flatten(pss), |obs| - 1)
    ensures PathSum(h, Extended(Flatten(pss), s), obs) == Sum(Scale(Inflows(h, f, s), h.B(s, obs[|obs| - 1])))
  {
    FlattenExtendedTotal(h, pss, |pss|, s, obs, f);
    assert pss[..|pss|] == pss && f[..|pss|] == f;
  }

  lemma ExtendedLengths(ps: seq<seq<nat>>, s: nat, length: nat)
    requires AllOfLength(ps, length)
    ensures AllOfLength(Extended(ps, s), length + 1)
  {
  }

  lemma InflowTotal(h: Params, f: seq<real>, s: nat, o: nat)
    requires s < |f|
    ensures Sum(Scale(Inflows(h, f, s), h.B(s, o))) == NextVector(h, f, o)[s]
  {
    InflowDef(h, f, s);
    SumScale(Inflows(h, f, s), h.B(s, o));
  }

  /** The forward vector sums to the path-sum probability of the observations. */
  lemma ForwardIsPathSum(h: Params, obs: seq<nat>)
    requires |obs| > 0
    ensures Sum(Forward(h, obs)) == ObservationsProbability(h, obs)
  {
    ForwardTotals(h, obs);
    FlattenTotal(h, PathsByEnd(h.States(), |obs|), obs, Forward(h, obs));
  }
}
