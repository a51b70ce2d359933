/** Streaming mean and variance (wsn/common/trust/distributions.c). */
module Gaussian {
  import opened RealSums

  datatype State = State(mean: real, variance: real, count: nat)

  const EMPTY := State(0.0, 0.0, 0)

  function NewMean(mean: real, n: real, value: real): real
    requires n != 0.0
  {
    mean + (value - mean) / n
  }

  function NewVariance(mean: real, variance: real, n: real, value: real): real
    requires n > 1.0
  {
    variance * ((n - 2.0) / (n - 1.0)) + (value - mean) * (value - mean) / n
  }

  /** gaussian_dist_update as a step on values. */
  function Step(d: State, value: real): State {
    if d.count == 0 then State(value, 0.0, 1)
    else
      var n := (d.count + 1) as real;
      State(NewMean(d.mean, n, value), NewVariance(d.mean, d.variance, n, value), d.count + 1)
  }

  /** gaussian_dist_t. */
  class Distribution {
    var mean: real
    var variance: real
    var count: nat

    ghost function Value(): State
      reads this
    {
      State(mean, variance, count)
    }

    constructor Empty()
      ensures Value() == EMPTY
    {
      mean, variance, count := 0.0, 0.0, 0;
    }

    constructor Init(mean: real, variance: real)
      ensures Value() == State(mean, variance, 1)
    {
      this.mean, this.variance, count := mean, variance, 1;
    }

    method Update(value: real)
      modifies this
      ensures Value() == Step(old(Value()), value)
    {
      if count == 0 {
        mean, variance, count := value, 0.0, 1;
      } else {
        var newCount := count + 1;
        var n := newCount as real;
        var newMean := NewMean(mean, n, value);
        var newVariance := NewVariance(mean, variance, n, value);
        mean, variance, count := newMean, newVariance, newCount;
      }
    }
  }

  ghost function After(d: State, values: seq<real>): State {
    if |values| == 0 then d else Step(After(d, values[..|values| - 1]), values[|values| - 1])
  }

  // ---------------------------------------------------------------------------
  // The batch definitions.
  // ---------------------------------------------------------------------------

  ghost function Mean(values: seq<real>): real
    requires |values| > 0
  {
    Sum(values) / |values| as real
  }

  /** The sum of squared deviations from a point. */
  ghost function Deviations(values: seq<real>, m: real): real {
    if |values| == 0 then 0.0
    else
      var x := values[|values| - 1] - m;
      Deviations(values[..|values| - 1], m) + x * x
  }

  /** The sample variance, with divisor n - 1; zero for a single value. */
  ghost function SampleVariance(values: seq<real>): real
    requires |values| > 0
  {
    if |values| == 1 then 0.0 else Deviations(values, Mean(values)) / (|values| - 1) as real
  }

  ghost function Squares(values: seq<real>): real {
    if |values| == 0 then 0.0
    else Squares(values[..|values| - 1]) + Times(values[|values| - 1], values[|values| - 1])
  }

  /** The deviations from any point, from the first two power sums. */
  lemma {:induction false} Expand(values: seq<real>, m: real)
    ensures Deviations(values, m) ==
            Squares(values) - 2.0 * Times(m, Sum(values)) + Times(|values| as real, Times(m, m))
  {
    var mm := Times(m, m);
    if |values| == 0 {
      TimesZero(m);
      TimesZero(mm);
    } else {
      var w, x := values[..|values| - 1], values[|values| - 1];
      Expand(w, m);
      SquareOfDifference(x, m);
      TimesDef(m, Sum(w));
      TimesDef(m, Sum(w) + x);
      Distribute(m, Sum(w), x);
      TimesSum(|w| as real, 1.0, mm);
      TimesOne(mm);
    }
  }

  lemma SquareOfDifference(x: real, m: real)
    ensures (x - m) * (x - m) == Times(x, x) - 2.0 * (m * x) + Times(m, m)
  {
    TimesDef(x, x);
    TimesDef(m, m);
  }

  lemma Distribute(m: real, a: real, b: real)
    ensures m * (a + b) == m * a + m * b
  {
  }

  // ---------------------------------------------------------------------------
  // The update.
  // ---------------------------------------------------------------------------

  /** The power-sum form of the squared deviations from the mean m, where n * m is the sum. */
  lemma AboutTheMean(values: seq<real>, n: real, m: real)
    requires n == |values| as real && Times(n, m) == Sum(values)
    ensures Deviations(values, m) == Squares(values) - Times(n, Times(m, m))
  {
    Expand(values, m);
    Regroup(n, m);
  }

  lemma Regroup(n: real, m: real)
    ensures Times(m, Times(n, m)) == Times(n, Times(m, m))
  {
    TimesDef(n, m);
    TimesDef(m, m);
    TimesDef(m, Times(n, m));
    TimesDef(n, Times(m, m));
    assert m * (n * m) == n * (m * m);
  }

  /** One value further, with d the change of the mean: what the squared deviations gain. */
  lemma Gain(n: real, m: real, d: real, x: real, e: real)
    requires x == m + (n + 1.0) * d && e == m + d
    ensures x * x - (n + 1.0) * (e * e) == n * ((n + 1.0) * (d * d)) - n * (m * m)
  {
    var md, dd, mm := m * d, d * d, m * m;
    assert x * x == mm + 2.0 * ((n + 1.0) * md) + (n + 1.0) * ((n + 1.0) * dd) by {
      SquareOfSum(m, d, n + 1.0);
    }
    assert e * e == mm + 2.0 * md + dd;
    Collect(n, mm, md, dd);
  }

  lemma SquareOfSum(m: real, d: real, k: real)
    ensures (m + k * d) * (m + k * d) == m * m + 2.0 * (k * (m * d)) + k * (k * (d * d))
  {
    var e := k * d;
    assert (m + e) * (m + e) == m * m + 2.0 * (m * e) + e * e;
    assert m * e == k * (m * d);
    assert e * e == k * (k * (d * d));
  }

  lemma Collect(n: real, mm: real, md: real, dd: real)
    ensures mm + 2.0 * ((n + 1.0) * md) + (n + 1.0) * ((n + 1.0) * dd) - (n + 1.0) * (mm + 2.0 * md + dd) ==
            n * ((n + 1.0) * dd) - n * mm
  {
    assert (n + 1.0) * (mm + 2.0 * md + dd) == (n + 1.0) * mm + 2.0 * ((n + 1.0) * md) + (n + 1.0) * dd;
    var z := (n + 1.0) * dd;
    assert (n + 1.0) * z == n * z + z;
    assert (n + 1.0) * mm == n * mm + mm;
  }

  /** The state holds the batch statistics of `values`, said without division. */
  ghost predicate Holds(d: State, values: seq<real>) {
    && |values| > 0 && d.count == |values|
    && Times(d.count as real, d.mean) == Sum(values)
    && Times(d.count as real - 1.0, d.variance) == Deviations(values, d.mean)
    && (d.count == 1 ==> d.variance == 0.0)
  }

  lemma FirstHolds(d: State, x: real)
    requires d.count == 0
    ensures Holds(Step(d, x), [x])
  {
    TimesOne(x);
    TimesZero(0.0);
    assert Sum([x]) == Sum([]) + x;
    assert [x][..0] == [];
    assert Deviations([x], x) == Deviations([], x) + (x - x) * (x - x);
  }

  /** One update, for n values so far and a change c of the mean. */
  ghost predicate Updated(d: State, d': State, x: real, n: real, c: real) {
    && n == d.count as real >= 1.0 && Times(n + 1.0, c) == x - d.mean
    && d'.count == d.count + 1 && d'.mean == d.mean + c
    && d'.variance == Times(d.variance, Quotient(n - 1.0, n)) + Quotient(Times(x - d.mean, x - d.mean), n + 1.0)
  }

  /** What the squared deviations gain when the mean of n values moves by c. */
  ghost function Gained(n: real, c: real): real { Times(n, Times(n + 1.0, Times(c, c))) }

  lemma GainedIs(n: real, c: real)
    ensures Gained(n, c) == n * ((n + 1.0) * (c * c))
  {
    var cc := Times(c, c);
    var kcc := Times(n + 1.0, cc);
    TimesDef(c, c);
    TimesDef(n + 1.0, cc);
    TimesDef(n, kcc);
    assert Gained(n, c) == Times(n, kcc) == n * kcc;
  }

  lemma MeanMoves(n: real, m: real, c: real, x: real)
    requires Times(n + 1.0, c) == x - m
    ensures Times(n + 1.0, m + c) == Times(n, m) + x
  {
    TimesDef(n, m);
    TimesDef(n + 1.0, c);
    TimesDef(n + 1.0, m + c);
    Distribute(n + 1.0, m, c);
  }

  lemma SquaresGain(n: real, m: real, c: real, x: real)
    requires Times(n + 1.0, c) == x - m
    ensures Times(x, x) - Times(n + 1.0, Times(m + c, m + c)) == Gained(n, c) - Times(n, Times(m, m))
  {
    var e := m + c;
    var mm, ee, xx := Times(m, m), Times(e, e), Times(x, x);
    TimesDef(n + 1.0, c);
    TimesDef(x, x);
    TimesDef(m, m);
    TimesDef(e, e);
    TimesDef(n, mm);
    TimesDef(n + 1.0, ee);
    Gain(n, m, c, x, e);
    assert xx - Times(n + 1.0, ee) == n * ((n + 1.0) * (c * c)) - Times(n, mm);
    GainedIs(n, c);
  }

  lemma DeviationsGain(values: seq<real>, n: real, m: real, c: real, x: real)
    requires n == |values| as real && Times(n, m) == Sum(values) && Times(n + 1.0, c) == x - m
    ensures Times(n + 1.0, m + c) == Sum(values + [x])
    ensures Deviations(values + [x], m + c) == Deviations(values, m) + Gained(n, c)
  {
    var all := values + [x];
    assert all[..|values|] == values;
    MeanMoves(n, m, c, x);
    SumSnoc(values, x);
    AboutTheMean(values, n, m);
    AboutTheMean(all, n + 1.0, m + c);
    SquaresGain(n, m, c, x);
  }

  lemma VarianceGain(v: real, n: real, y: real, c: real, v': real)
    requires n >= 1.0 && Times(n + 1.0, c) == y
    requires v' == Times(v, Quotient(n - 1.0, n)) + Quotient(Times(y, y), n + 1.0)
    ensures Times(n, v') == Times(n - 1.0, v) + Gained(n, c)
  {
    VarianceFormula(v, n, y, v');
    TimesDef(n + 1.0, c);
    VarianceUpdate(v, n, y, c, v');
    GainedIs(n, c);
    TimesDef(n, v');
    TimesDef(n - 1.0, v);
  }

  lemma VarianceFormula(v: real, n: real, y: real, v': real)
    requires n >= 1.0 && v' == Times(v, Quotient(n - 1.0, n)) + Quotient(Times(y, y), n + 1.0)
    ensures v' == v * ((n - 1.0) / n) + y * y / (n + 1.0)
  {
    TimesDef(y, y);
    QuotientDef(n - 1.0, n);
    QuotientDef(y * y, n + 1.0);
    TimesDef(v, (n - 1.0) / n);
  }

  lemma UpdatedHolds(d: State, d': State, values: seq<real>, x: real, n: real, c: real)
    requires Holds(d, values) && Updated(d, d', x, n, c)
    ensures Holds(d', values + [x])
  {
    DeviationsGain(values, n, d.mean, c, x);
    VarianceGain(d.variance, n, x - d.mean, c, d'.variance);
    assert d'.count as real == n + 1.0 && d'.count as real - 1.0 == n;
  }

  lemma StepHolds(d: State, values: seq<real>, x: real)
    requires Holds(d, values)
    ensures Holds(Step(d, x), values + [x])
  {
    var n := d.count as real;
    var c := (x - d.mean) / (n + 1.0);
    StepIs(d, x, n, c);
    UpdatedHolds(d, Step(d, x), values, x, n, c);
  }

  lemma StepIs(d: State, x: real, n: real, c: real)
    requires d.count > 0 && n == d.count as real && c == (x - d.mean) / (n + 1.0)
    ensures Updated(d, Step(d, x), x, n, c)
  {
    TimesDef(n + 1.0, c);
    assert (d.count + 1) as real == n + 1.0;
    VarianceHidden(d.mean, d.variance, n, x);
  }

  lemma VarianceHidden(mean: real, v: real, n: real, x: real)
    requires n >= 1.0
    ensures NewVariance(mean, v, n + 1.0, x) ==
            Times(v, Quotient(n - 1.0, n)) + Quotient(Times(x - mean, x - mean), n + 1.0)
  {
    var y, q := x - mean, Quotient(n - 1.0, n);
    TimesDef(y, y);
    QuotientDef(n - 1.0, n);
    QuotientDef(y * y, n + 1.0);
    TimesDef(v, q);
    assert n + 1.0 - 2.0 == n - 1.0 && n + 1.0 - 1.0 == n;
  }

  /** The variance update is the gain in squared deviations, over the new divisor. */
  lemma VarianceUpdate(v: real, n: real, y: real, c: real, v': real)
    requires n >= 1.0 && (n + 1.0) * c == y && v' == v * ((n - 1.0) / n) + y * y / (n + 1.0)
    ensures n * v' == (n - 1.0) * v + n * ((n + 1.0) * (c * c))
  {
    var r := (n - 1.0) / n;
    assert r * n == n - 1.0;
    assert n * (v * r) == v * (r * n);
    Ratio(n + 1.0, c, y);
    Distribute(n, v * r, y * y / (n + 1.0));
  }

  lemma Ratio(k: real, c: real, y: real)
    requires k > 0.0 && k * c == y
    ensures y * y / k == k * (c * c)
  {
    assert y * y == k * (k * (c * c)) by {
      assert (k * c) * (k * c) == k * (k * (c * c));
    }
  }

  lemma {:induction false} RunHolds(values: seq<real>)
    requires |values| > 0
    ensures Holds(After(EMPTY, values), values)
  {
    var w, x := values[..|values| - 1], values[|values| - 1];
    assert values == w + [x];
    if |values| == 1 {
      FirstHolds(EMPTY, x);
      assert values == [x];
    } else {
      RunHolds(w);
      StepHolds(After(EMPTY, w), w, x);
    }
  }

  lemma ExactQuotient(a: real, b: real, c: real)
    requires a != 0.0 && a * b == c
    ensures b == c / a
  {
  }

  /** After any values the running state is exactly the batch mean and the batch sample variance. */
  lemma StreamingIsBatch(values: seq<real>)
    requires |values| > 0
    ensures After(EMPTY, values) == State(Mean(values), SampleVariance(values), |values|)
  {
    RunHolds(values);
    var d := After(EMPTY, values);
    TimesDef(d.count as real, d.mean);
    TimesDef(d.count as real - 1.0, d.variance);
    ExactQuotient(d.count as real, d.mean, Sum(values));
    if |values| > 1 {
      ExactQuotient(d.count as real - 1.0, d.variance, Deviations(values, d.mean));
    }
  }

  // ---------------------------------------------------------------------------
  // Starting from a given mean and variance.
  // ---------------------------------------------------------------------------

  lemma VarianceForgotten(m: real, v: real, x: real)
    ensures Step(State(m, v, 1), x) == Step(State(m, 0.0, 1), x)
  {
    assert (2.0 - 2.0) / (2.0 - 1.0) == 0.0;
  }

  /**
   A distribution initialised with a mean and a variance continues as if the mean had been its first
   observation: the variance it was given never influences any later state.
   */
  lemma {:induction false} GivenVarianceIsUnused(m: real, v: real, values: seq<real>)
    requires |values| > 0
    ensures After(State(m, v, 1), values) == After(EMPTY, [m] + values)
  {
    var w, x := values[..|values| - 1], values[|values| - 1];
    assert ([m] + values)[..|values|] == [m] + w;
    if |values| == 1 {
      VarianceForgotten(m, v, x);
      assert [m] + w == [m] && [m][..0] == [];
      assert After(EMPTY, [m]) == Step(After(EMPTY, []), m);
    } else {
      GivenVarianceIsUnused(m, v, w);
    }
  }
}
