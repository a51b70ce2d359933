/** What the assessed numbers mean: a probability measure on histories, which is the Markov chain when states are visible. */
module HmmMeasure {
  import opened RealSums
  import opened HmmPaths
  import opened HmmUpdate

  /** The first `n` rows have `m` entries each, which add up to one. */
  ghost predicate Distributions(rows: seq<seq<real>>, n: nat, m: nat) {
    n <= |rows| && forall s :: 0 <= s < n ==> |rows[s]| == m && Sum(rows[s]) == 1.0
  }

  /** What every source `s` of weight `x[s]` gives to target `o`. */
  ghost function Given(x: seq<real>, rows: seq<seq<real>>, m: nat, o: nat): (r: seq<real>)
    requires Distributions(rows, |x|, m) && o < m
    ensures |r| == |x| && forall s :: 0 <= s < |x| ==> r[s] == Times(x[s], rows[s][o])
  {
    seq(|x|, s requires 0 <= s < |x| => Times(x[s], rows[s][o]))
  }

  ghost function Received(x: seq<real>, rows: seq<seq<real>>, m: nat): (r: seq<real>)
    requires Distributions(rows, |x|, m)
    ensures |r| == m && forall o :: 0 <= o < m ==> r[o] == Sum(Given(x, rows, m, o))
  {
    seq(m, o requires 0 <= o < m => Sum(Given(x, rows, m, o)))
  }

  lemma {:induction false} SumOfZeros(v: seq<real>)
    requires forall i :: 0 <= i < |v| ==> v[i] == 0.0
    ensures Sum(v) == 0.0
  {
    if |v| > 0 {
      SumOfZeros(v[..|v| - 1]);
    }
  }

  lemma {:induction false} SumOfSums(a: seq<real>, b: seq<real>, c: seq<real>)
    requires |a| == |b| == |c| && forall i :: 0 <= i < |a| ==> c[i] == a[i] + b[i]
    ensures Sum(c) == Sum(a) + Sum(b)
  {
    if |a| > 0 {
      var k := |a| - 1;
      SumOfSums(a[..k], b[..k], c[..k]);
    }
  }

  lemma {:induction false} SumOfOneEntry(v: seq<real>, k: nat)
    requires k < |v| && forall i :: 0 <= i < |v| && i != k ==> v[i] == 0.0
    ensures Sum(v) == v[k]
  {
    var n := |v| - 1;
    if k == n {
      SumOfZeros(v[..n]);
    } else {
      SumOfOneEntry(v[..n], k);
    }
  }

  lemma TimesCommute(x: real, y: real)
    ensures Times(x, y) == Times(y, x)
  {
    TimesDef(x, y);
    TimesDef(y, x);
  }

  lemma GivenByLast(x: seq<real>, rows: seq<seq<real>>, m: nat, o: nat)
    requires Distributions(rows, |x|, m) && o < m && |x| > 0
    ensures Sum(Given(x, rows, m, o)) ==
            Sum(Given(x[..|x| - 1], rows, m, o)) + Times(rows[|x| - 1][o], x[|x| - 1])
  {
    var k := |x| - 1;
    TimesCommute(x[k], rows[k][o]);
    assert Given(x, rows, m, o)[..k] == Given(x[..k], rows, m, o);
  }

  /** Weight that is handed on by probability rows is conserved. */
  lemma {:induction false} WeightIsConserved(x: seq<real>, rows: seq<seq<real>>, m: nat)
    requires Distributions(rows, |x|, m)
    ensures Sum(Received(x, rows, m)) == Sum(x)
  {
    if |x| == 0 {
      SumOfZeros(Received(x, rows, m));
    } else {
      var k := |x| - 1;
      WeightIsConserved(x[..k], rows, m);
      forall o | 0 <= o < m
        ensures Received(x, rows, m)[o] == Received(x[..k], rows, m)[o] + Scale(rows[k], x[k])[o]
      {
        GivenByLast(x, rows, m, o);
      }
      SumOfSums(Received(x[..k], rows, m), Scale(rows[k], x[k]), Received(x, rows, m));
      SumScale(rows[k], x[k]);
      TimesOne(x[k]);
    }
  }

  /** Start, transitions and emissions are all probability vectors. */
  ghost predicate Probabilistic(h: Params, numObs: nat) {
    h.WellFormed(numObs) && Stochastic(h) && Distributions(h.emission, h.States(), numObs)
  }

  /** The probabilities of a history followed by each possible observation. */
  ghost function Continuations(h: Params, numObs: nat, w: seq<nat>): (r: seq<real>)
    ensures |r| == numObs && forall o :: 0 <= o < numObs ==> r[o] == ObservationsProbability(h, w + [o])
  {
    seq(numObs, o requires 0 <= o => ObservationsProbability(h, w + [o]))
  }

  /**
   The numbers assessed for all possible next observations add up to the probability of the history
   before them, and to one at the start: they are a probability measure.
   */
  lemma ContinuationsAddUp(h: Params, numObs: nat, w: seq<nat>)
    requires Probabilistic(h, numObs)
    ensures Sum(Continuations(h, numObs, w)) == if w == [] then 1.0 else ObservationsProbability(h, w)
  {
    var before := if w == [] then h.initial else Inflowing(h, Forward(h, w));
    forall o | 0 <= o < numObs
      ensures Continuations(h, numObs, w)[o] == Received(before, h.emission, numObs)[o]
    {
      assert (w + [o])[..|w|] == w;
      assert Forward(h, w + [o]) == Given(before, h.emission, numObs, o);
      ForwardIsPathSum(h, w + [o]);
    }
    assert Continuations(h, numObs, w) == Received(before, h.emission, numObs);
    WeightIsConserved(before, h.emission, numObs);
    if w != [] {
      InflowsConserve(h, numObs, Forward(h, w));
      ForwardIsPathSum(h, w);
    }
  }

  ghost function Inflowing(h: Params, v: seq<real>): (r: seq<real>)
    ensures |r| == |v| && forall s :: 0 <= s < |v| ==> r[s] == Inflow(h, v, s)
  {
    seq(|v|, s requires 0 <= s => Inflow(h, v, s))
  }

  lemma InflowsConserve(h: Params, numObs: nat, v: seq<real>)
    requires Probabilistic(h, numObs) && |v| == h.States()
    ensures Sum(Inflowing(h, v)) == Sum(v)
  {
    forall s | 0 <= s < |v|
      ensures Inflowing(h, v)[s] == Received(v, h.trans, |v|)[s]
    {
      InflowDef(h, v, s);
      assert Inflows(h, v, s) == Given(v, h.trans, |v|, s);
    }
    assert Inflowing(h, v) == Received(v, h.trans, |v|);
    WeightIsConserved(v, h.trans, |v|);
  }

  /** Every state shows itself as the observation of the same number. */
  ghost predicate StatesVisible(h: Params) {
    forall s, o :: 0 <= s < h.States() && 0 <= o < h.States() ==> h.B(s, o) == if s == o then 1.0 else 0.0
  }

  /** The weight of a state before its last observation is taken into account. */
  ghost function Arriving(h: Params, obs: seq<nat>, s: nat): real
    requires |obs| > 0
  {
    if |obs| == 1 then h.Pi(s) else Inflow(h, Forward(h, obs[..|obs| - 1]), s)
  }

  /** With visible states only the last one can be the current state. */
  lemma {:induction false} ForwardOfVisible(h: Params, obs: seq<nat>)
    requires StatesVisible(h) && Below(obs, h.States()) && |obs| > 0
    ensures forall s :: 0 <= s < h.States() && s != obs[|obs| - 1] ==> Forward(h, obs)[s] == 0.0
    ensures Sum(Forward(h, obs)) == Forward(h, obs)[obs[|obs| - 1]]
    ensures Forward(h, obs)[obs[|obs| - 1]] ==
            if |obs| == 1 then h.Pi(obs[0])
            else Times(Sum(Forward(h, obs[..|obs| - 1])), h.A(obs[|obs| - 2], obs[|obs| - 1]))
  {
    var k := |obs| - 1;
    forall s: nat | s < h.States()
      ensures Forward(h, obs)[s] == if s == obs[k] then Arriving(h, obs, s) else 0.0
    {
      TimesOne(Arriving(h, obs, s));
      TimesZero(Arriving(h, obs, s));
    }
    SumOfOneEntry(Forward(h, obs), obs[k]);
    if k > 0 {
      ForwardOfVisible(h, obs[..k]);
      InflowOfOne(h, Forward(h, obs[..k]), obs[k - 1], obs[k]);
    }
  }

  lemma InflowOfOne(h: Params, v: seq<real>, from: nat, to: nat)
    requires from < |v| && forall s :: 0 <= s < |v| && s != from ==> v[s] == 0.0
    ensures Inflow(h, v, to) == Times(v[from], h.A(from, to))
  {
    InflowDef(h, v, to);
    forall s | 0 <= s < |v| && s != from
      ensures Inflows(h, v, to)[s] == 0.0
    {
      TimesZero(h.A(s, to));
    }
    SumOfOneEntry(Inflows(h, v, to), from);
  }

  /**
   When every observation gives its state away, the assessment of a history is that of a Markov chain: the
   initial probability of the first state, then one transition from each state to the next.
   */
  lemma VisibleIsMarkovChain(h: Params, obs: seq<nat>, o: nat)
    requires StatesVisible(h) && Below(obs, h.States()) && o < h.States()
    ensures ObservationsProbability(h, obs + [o]) ==
            if obs == [] then h.Pi(o)
            else Times(ObservationsProbability(h, obs), h.A(obs[|obs| - 1], o))
  {
    var all := obs + [o];
    ForwardOfVisible(h, all);
    ForwardIsPathSum(h, all);
    if obs != [] {
      assert all[..|obs|] == obs;
      ForwardIsPathSum(h, obs);
    }
  }
}
