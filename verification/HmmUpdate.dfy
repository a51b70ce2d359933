/** The online Bayes update and the default model (wsn/common/trust/hmm.c). */
module HmmUpdate {
  import opened RealSums
  import opened HmmPaths
  import opened HmmForward

  /** Probability vectors for the start and for every transition row. */
  ghost predicate Stochastic(h: Params) {
    Sum(h.initial) == 1.0 && forall s :: 0 <= s < |h.trans| ==> Sum(h.trans[s]) == 1.0
  }

  ghost predicate PositiveEmissions(h: Params, numObs: nat) {
    forall s, o :: 0 <= s < h.States() && 0 <= o < numObs ==> h.B(s, o) > 0.0
  }

  ghost predicate Proper(h: Params, numObs: nat) {
    h.WellFormed(numObs) && h.AllNonNegative() && Stochastic(h) && PositiveEmissions(h, numObs)
  }

  predicate Observations(obs: seq<nat>, numObs: nat) {
    forall t :: 0 <= t < |obs| ==> obs[t] < numObs
  }

  /** The `initial` vector after feeding `obs` to hmm_update, the first call with first = true. */
  ghost function AfterUpdates(h: Params, obs: seq<nat>): (r: seq<real>)
    requires |obs| > 0
    ensures |r| == h.States()
  {
    var k := |obs| - 1;
    if k == 0 then Normalised(FirstVector(h, obs[0]))
    else Normalised(NextVector(h, AfterUpdates(h, obs[..k]), obs[k]))
  }

  lemma {:induction false} PositiveEntry(v: seq<real>) returns (s: nat)
    requires NonNegative(v) && Sum(v) > 0.0
    ensures s < |v| && v[s] > 0.0
  {
    s := |v| - 1;
    if v[s] == 0.0 {
      s := PositiveEntry(v[..|v| - 1]);
    }
  }

  lemma TimesPositive(x: real, y: real)
    requires x > 0.0 && y > 0.0
    ensures Times(x, y) > 0.0
  {
    TimesDef(x, y);
  }

  /** Probability mass cannot vanish: some state passes some of it on, and every emission is positive. */
  lemma NextVectorPositive(h: Params, numObs: nat, v: seq<real>, o: nat)
    requires Proper(h, numObs) && o < numObs && |v| == h.States() && NonNegative(v) && Sum(v) > 0.0
    ensures NonNegative(NextVector(h, v, o)) && Sum(NextVector(h, v, o)) > 0.0
  {
    NextVectorNonNegative(h, v, o);
    var from := PositiveEntry(v);
    RowNonNegative(h, numObs, from);
    var to := PositiveEntry(h.trans[from]);
    var ins := Inflows(h, v, to);
    InflowsNonNegative(h, v, to);
    assert h.A(from, to) > 0.0;
    TimesPositive(v[from], h.A(from, to));
    SumBounds(ins, from);
    InflowDef(h, v, to);
    TimesPositive(Inflow(h, v, to), h.B(to, o));
    SumBounds(NextVector(h, v, o), to);
  }

  lemma RowNonNegative(h: Params, numObs: nat, s: nat)
    requires h.WellFormed(numObs) && h.AllNonNegative() && s < h.States()
    ensures NonNegative(h.trans[s])
  {
    forall i | 0 <= i < |h.trans[s]|
      ensures h.trans[s][i] >= 0.0
    {
      assert h.A(s, i) >= 0.0;
    }
  }

  lemma FirstVectorPositive(h: Params, numObs: nat, o: nat)
    requires Proper(h, numObs) && o < numObs
    ensures Sum(FirstVector(h, o)) > 0.0
  {
    FirstVectorNonNegative(h, o);
    forall i | 0 <= i < |h.initial|
      ensures h.initial[i] >= 0.0
    {
      assert h.Pi(i) >= 0.0;
    }
    var s := PositiveEntry(h.initial);
    TimesPositive(h.Pi(s), h.B(s, o));
    SumBounds(FirstVector(h, o), s);
  }

  lemma {:induction false} ForwardPositive(h: Params, numObs: nat, obs: seq<nat>)
    requires Proper(h, numObs) && Observations(obs, numObs) && |obs| > 0
    ensures NonNegative(Forward(h, obs)) && Sum(Forward(h, obs)) > 0.0
  {
    var k := |obs| - 1;
    if k == 0 {
      FirstVectorNonNegative(h, obs[0]);
      FirstVectorPositive(h, numObs, obs[0]);
    } else {
      ForwardPositive(h, numObs, obs[..k]);
      NextVectorPositive(h, numObs, Forward(h, obs[..k]), obs[k]);
    }
  }

  /**
   For a proper model no history has probability zero, so the assessment is independent of the stack
   exactly when the ring is full.
   */
  lemma ProperExactIffFull(h: Params, numObs: nat, size: nat, w: seq<nat>)
    requires Proper(h, numObs) && Observations(w, numObs) && 1 < |w| <= size + 1
    ensures (forall stale: seq<real> :: |stale| == size + 1 ==> Returned(h, w, stale) == ObservationsProbability(h, w))
       <==> |w| == size + 1
  {
    ForwardPositive(h, numObs, w);
    ForwardIsPathSum(h, w);
    ExactIffFull(h, size, w);
  }

  lemma {:induction false} UpdatesRepresentForward(h: Params, obs: seq<nat>)
    requires h.AllNonNegative() && |obs| > 0
    ensures exists k :: Represents(AfterUpdates(h, obs), k, Forward(h, obs))
  {
    var k := |obs| - 1;
    if k == 0 {
      FirstStep(h, obs[0], FirstVector(h, obs[0]));
      assert Represents(AfterUpdates(h, obs), Sum(FirstVector(h, obs[0])), Forward(h, obs));
    } else {
      UpdatesRepresentForward(h, obs[..k]);
      var v := AfterUpdates(h, obs[..k]);
      var c :| Represents(v, c, Forward(h, obs[..k]));
      LaterStep(h, obs[k], v, c, Forward(h, obs[..k]));
      var raw := NextVector(h, v, obs[k]);
      assert Represents(AfterUpdates(h, obs), Times(c, Sum(raw)), Forward(h, obs));
    }
  }

  lemma NormalisedSumsToOne(v: seq<real>)
    requires Sum(v) != 0.0
    ensures Sum(Normalised(v)) == 1.0
  {
    var c := Sum(v);
    forall s | 0 <= s < |v|
      ensures Normalised(v)[s] == Scale(v, 1.0 / c)[s]
    {
      QuotientDef(v[s], c);
      TimesDef(v[s], 1.0 / c);
    }
    assert Normalised(v) == Scale(v, 1.0 / c);
    SumScale(v, 1.0 / c);
    TimesDef(c, 1.0 / c);
  }

  lemma DivideBack(v: seq<real>, k: real)
    requires k > 0.0 && Sum(Scale(v, k)) == k
    ensures Normalised(Scale(v, k)) == v
  {
    forall s | 0 <= s < |v|
      ensures Normalised(Scale(v, k))[s] == v[s]
    {
      TimesDef(v[s], k);
      QuotientDef(Times(v[s], k), k);
    }
  }

  /**
   After any run of updates the stored vector is the normalised forward vector, a probability
   distribution, and no update divides by zero.
   */
  lemma UpdatesAreForward(h: Params, numObs: nat, obs: seq<nat>)
    requires Proper(h, numObs) && Observations(obs, numObs) && |obs| > 0
    ensures Sum(Forward(h, obs)) > 0.0
    ensures AfterUpdates(h, obs) == Normalised(Forward(h, obs))
    ensures NonNegative(AfterUpdates(h, obs)) && Sum(AfterUpdates(h, obs)) == 1.0
  {
    ForwardPositive(h, numObs, obs);
    UpdatesRepresentForward(h, obs);
    var k :| Represents(AfterUpdates(h, obs), k, Forward(h, obs));
    DivideBack(AfterUpdates(h, obs), k);
    NormalisedSumsToOne(Forward(h, obs));
  }

  /** Every transition row is the initial distribution, as in hmm_init_default. */
  ghost predicate RowsAreInitial(h: Params) {
    forall s, s' :: 0 <= s < h.States() && 0 <= s' < h.States() ==> h.A(s, s') == h.Pi(s')
  }

  /** With equal rows the transition forgets the state, so only the last observation counts. */
  lemma OnlyLastObservation(h: Params, numObs: nat, obs: seq<nat>)
    requires Proper(h, numObs) && RowsAreInitial(h) && Observations(obs, numObs) && |obs| > 0
    ensures AfterUpdates(h, obs) == AfterUpdates(h, [obs[|obs| - 1]])
  {
    var k := |obs| - 1;
    if k > 0 {
      var v := AfterUpdates(h, obs[..k]);
      UpdatesAreForward(h, numObs, obs[..k]);
      forall s | 0 <= s < h.States()
        ensures NextVector(h, v, obs[k])[s] == FirstVector(h, obs[k])[s]
      {
        assert Inflows(h, v, s) == Scale(v, h.Pi(s));
        InflowDef(h, v, s);
        SumScale(v, h.Pi(s));
        TimesOne(h.Pi(s));
      }
      assert NextVector(h, v, obs[k]) == FirstVector(h, obs[k]);
    }
  }

  /** On an empty history there is always a stack content that makes the result wrong. */
  lemma EmptyHistoryIsUndefined(h: Params, numObs: nat, ob: nat, size: nat, before: seq<real>)
    requires Proper(h, numObs) && ob < numObs && size > 0
    ensures exists stale :: |stale| == size + 1 &&
              ReturnedWhenEmpty(h, ob, before, stale) != ObservationsProbability(h, [ob])
  {
    var stale := Zeros(size + 1);
    ProductOfZeros(size + 1, 1);
    TimesZero(Sum(NextVector(h, before, ob)));
    ForwardIsPathSum(h, [ob]);
    FirstVectorPositive(h, numObs, ob);
    assert ReturnedWhenEmpty(h, ob, before, stale) != ObservationsProbability(h, [ob]);
  }

  class Hmm {
    const numObs: nat
    const initial: array<real>
    const trans: seq<seq<real>>
    const emission: seq<seq<real>>

    ghost function Model(): Params
      reads initial
    {
      Params(initial[..], trans, emission)
    }

    constructor (h: Params, numObs: nat)
      ensures Model() == h && this.numObs == numObs && fresh(initial)
    {
      this.numObs := numObs;
      trans, emission := h.trans, h.emission;
      initial := new real[|h.initial|](i requires 0 <= i < |h.initial| => h.initial[i]);
      new;
      assert initial[..] == h.initial;
    }

    function A(from: nat, to: nat): (r: real)
      reads initial
      ensures r == Model().A(from, to)
    {
      if from < |trans| && to < |trans[from]| then trans[from][to] else 0.0
    }

    function B(s: nat, o: nat): (r: real)
      reads initial
      ensures r == Model().B(s, o)
    {
      if s < |emission| && o < |emission[s]| then emission[s][o] else 0.0
    }

    /** hmm_one_observation_probability: the total mass the current distribution gives to `ob`. */
    method OneObservationProbability(ob: nat) returns (c: real)
      requires Model().WellFormed(numObs) && ob < numObs
      ensures c == Sum(FirstVector(Model(), ob)) == ObservationsProbability(Model(), [ob])
    {
      ghost var v := FirstVector(Model(), ob);
      c := 0.0;
      for i := 0 to initial.Length
        invariant c == Sum(v[..i])
      {
        SumPrefixStep(v, i);
        TimesDef(initial[i], B(i, ob));
        c := c + initial[i] * B(i, ob);
      }
      assert v[..|v|] == v;
      ForwardIsPathSum(Model(), [ob]);
    }

    /**
     hmm_update: one step of Bayesian filtering, stored back into `initial`. A total of zero divides
     by zero: the entries are then not numbers, and the result says so.
     */
    method Update(ob: nat, first: bool) returns (defined: bool)
      requires Model().WellFormed(numObs) && ob < numObs
      modifies initial
      ensures defined <==> old(Sum(RawColumn(Model(), initial[..], ob, first))) != 0.0
      ensures defined ==> initial[..] == Normalised(old(RawColumn(Model(), initial[..], ob, first)))
    {
      var alpha := new real[initial.Length];
      var c := Weigh(alpha, ob, first);
      defined := c != 0.0;
      if defined {
        Store(alpha, c, RawColumn(Model(), initial[..], ob, first));
      }
    }

    /** The first loop of the update: the unnormalised vector and its total. */
    method Weigh(alpha: array<real>, ob: nat, first: bool) returns (c: real)
      requires alpha != initial && alpha.Length == initial.Length
      modifies alpha
      ensures alpha[..] == RawColumn(Model(), initial[..], ob, first) && c == Sum(alpha[..])
    {
      ghost var raw := RawColumn(Model(), initial[..], ob, first);
      c := 0.0;
      for s1 := 0 to initial.Length
        invariant alpha[..s1] == raw[..s1] && c == Sum(raw[..s1])
      {
        var a := WeighState(s1, ob, first, raw);
        alpha[s1] := a;
        SumPrefixStep(raw, s1);
        c := c + a;
        assert alpha[..s1 + 1] == raw[..s1] + [a];
      }
      assert alpha[..] == alpha[..initial.Length] && raw[..|raw|] == raw;
    }

    method WeighState(s1: nat, ob: nat, first: bool, ghost raw: seq<real>) returns (a: real)
      requires s1 < initial.Length && raw == RawColumn(Model(), initial[..], ob, first)
      ensures a == raw[s1]
    {
      a := initial[s1];
      if !first {
        a := Arriving(s1);
      }
      TimesDef(a, B(s1, ob));
      a := a * B(s1, ob);
    }

    /** The inner loop of the update: the mass that moves into s1. */
    method Arriving(s1: nat) returns (a: real)
      ensures a == Inflow(Model(), initial[..], s1)
    {
      ghost var ins := Inflows(Model(), initial[..], s1);
      InflowDef(Model(), initial[..], s1);
      a := 0.0;
      for s2 := 0 to initial.Length
        invariant a == Sum(ins[..s2])
      {
        SumPrefixStep(ins, s2);
        TimesDef(initial[s2], A(s2, s1));
        a := a + initial[s2] * A(s2, s1);
      }
      assert ins[..|ins|] == ins;
    }

    /** Normalises alpha and copies it over `initial`. */
    method Store(alpha: array<real>, c: real, ghost raw: seq<real>)
      requires alpha != initial && alpha.Length == initial.Length && alpha[..] == raw && c == Sum(raw) != 0.0
      modifies alpha, initial
      ensures initial[..] == Normalised(raw)
    {
      for s1 := 0 to alpha.Length
        invariant forall s :: 0 <= s < s1 ==> alpha[s] == Quotient(raw[s], c)
        invariant forall s :: s1 <= s < alpha.Length ==> alpha[s] == raw[s]
      {
        QuotientDef(alpha[s1], c);
        alpha[s1] := alpha[s1] / c;
      }
      for i := 0 to alpha.Length
        invariant forall s :: 0 <= s < alpha.Length ==> alpha[s] == Quotient(raw[s], c)
        invariant forall s :: 0 <= s < i ==> initial[s] == alpha[s]
      {
        initial[i] := alpha[i];
      }
    }
  }

  /** A whole run on one object: after it, `initial` is the normalised forward vector of the run. */
  method RunUpdates(m: Hmm, obs: seq<nat>)
    requires Proper(m.Model(), m.numObs) && Observations(obs, m.numObs) && |obs| > 0
    modifies m.initial
    ensures m.initial[..] == Normalised(Forward(old(m.Model()), obs))
    ensures NonNegative(m.initial[..]) && Sum(m.initial[..]) == 1.0
  {
    ghost var h := m.Model();
    for t := 0 to |obs|
      invariant t == 0 ==> m.Model() == h
      invariant t > 0 ==> m.initial[..] == AfterUpdates(h, obs[..t])
      invariant m.initial.Length == h.States()
    {
      UpdateIsNext(h, m.numObs, m.initial[..], obs, t);
      var _ := m.Update(obs[t], t == 0);
    }
    assert obs[..|obs|] == obs;
    UpdatesAreForward(h, m.numObs, obs);
  }

  lemma UpdateIsNext(h: Params, numObs: nat, v: seq<real>, obs: seq<nat>, t: nat)
    requires Proper(h, numObs) && Observations(obs, numObs) && t < |obs|
    requires if t == 0 then v == h.initial else v == AfterUpdates(h, obs[..t])
    ensures var raw := RawColumn(h.(initial := v), v, obs[t], t == 0);
            Sum(raw) > 0.0 && Normalised(raw) == AfterUpdates(h, obs[..t + 1])
  {
    if t == 0 {
      FirstVectorPositive(h, numObs, obs[0]);
    } else {
      NextVectorAfter(h, numObs, obs[..t], obs[t]);
      TransitionsOnly(h, v, obs[t]);
      AfterUpdatesNext(h, obs, t);
    }
  }

  lemma NextVectorAfter(h: Params, numObs: nat, before: seq<nat>, o: nat)
    requires Proper(h, numObs) && Observations(before, numObs) && |before| > 0 && o < numObs
    ensures Sum(NextVector(h, AfterUpdates(h, before), o)) > 0.0
  {
    UpdatesAreForward(h, numObs, before);
    NextVectorPositive(h, numObs, AfterUpdates(h, before), o);
  }

  lemma AfterUpdatesNext(h: Params, obs: seq<nat>, t: nat)
    requires 0 < t < |obs|
    ensures AfterUpdates(h, obs[..t + 1]) == Normalised(NextVector(h, AfterUpdates(h, obs[..t]), obs[t]))
  {
    assert obs[..t + 1][..t] == obs[..t];
  }

  /** The next vector does not read the initial distribution of the model it is given. */
  lemma TransitionsOnly(h: Params, v: seq<real>, o: nat)
    ensures NextVector(h.(initial := v), v, o) == NextVector(h, v, o)
  {
    var h' := h.(initial := v);
    forall s | 0 <= s < |v|
      ensures NextVector(h', v, o)[s] == NextVector(h, v, o)[s]
    {
      InflowDef(h', v, s);
      InflowDef(h, v, s);
      assert Inflows(h', v, s) == Inflows(h, v, s);
    }
  }

  const NUM_OBSERVATIONS := 4
  const OBS_RESULT_QUALITY_CORRECT := 3

  /**
   hmm_init_default: a proper model, both of whose transition rows are the initial distribution. A good
   edge gives correct results nine times in ten and a bad one once; each state's other observations are
   equally likely, and its emissions are a distribution.
   */
  method DefaultModel() returns (h: Params)
    ensures Proper(h, NUM_OBSERVATIONS) && h.States() == 2
    ensures Sum(h.emission[0]) == 1.0 && Sum(h.emission[1]) == 1.0
    ensures RowsAreInitial(h)
    ensures h.Pi(0) == 0.8 && h.Pi(1) == 0.2
    ensures h.B(0, OBS_RESULT_QUALITY_CORRECT) == 0.9 && h.B(1, OBS_RESULT_QUALITY_CORRECT) == 0.1
    ensures forall s, o, o' :: 0 <= s < 2 && 0 <= o < OBS_RESULT_QUALITY_CORRECT && 0 <= o' < OBS_RESULT_QUALITY_CORRECT ==>
              h.B(s, o) == h.B(s, o')
  {
    var emission := [];
    for i := 0 to 2
      invariant emission == [DefaultEmissions(true), DefaultEmissions(false)][..i]
    {
      var row := [];
      for j := 0 to NUM_OBSERVATIONS
        invariant row == DefaultEmissions(i == 0)[..j]
      {
        var goodState, goodObs := i == 0, j == OBS_RESULT_QUALITY_CORRECT;
        var p;
        if goodState {
          if goodObs {
            p := 0.9;
          } else {
            p := (1.0 - 0.9) / 3.0;
          }
        } else {
          if goodObs {
            p := 1.0 - 0.9;
          } else {
            p := 0.9 / 3.0;
          }
        }
        row := row + [p];
      }
      assert row == DefaultEmissions(i == 0);
      emission := emission + [row];
    }
    assert emission == [DefaultEmissions(true), DefaultEmissions(false)];
    h := Params([0.8, 0.2], [[0.8, 0.2], [0.8, 0.2]], emission);
    SumOfTwo([0.8, 0.2]);
    SumOfFour(DefaultEmissions(true));
    SumOfFour(DefaultEmissions(false));
  }

  function DefaultEmissions(trustworthy: bool): (r: seq<real>)
    ensures |r| == NUM_OBSERVATIONS
  {
    if trustworthy then [0.1 / 3.0, 0.1 / 3.0, 0.1 / 3.0, 0.9] else [0.3, 0.3, 0.3, 0.1]
  }

  lemma SumOfTwo(v: seq<real>)
    requires |v| == 2
    ensures Sum(v) == v[0] + v[1]
  {
    SumPrefixStep(v, 0);
    SumPrefixStep(v, 1);
    assert v[..2] == v;
  }

  lemma SumOfFour(v: seq<real>)
    requires |v| == 4
    ensures Sum(v) == v[0] + v[1] + v[2] + v[3]
  {
    SumOfTwo(v[..2]);
    SumPrefixStep(v, 2);
    SumPrefixStep(v, 3);
    assert v[..4] == v;
  }
}
