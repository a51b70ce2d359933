/**
 The scaled forward algorithm of hmm_observation_probability (wsn/common/trust/hmm.c), proved against
 the sum over paths. Floats are modelled as reals, and exp of a sum of logs as a product.
 */
module HmmForward {
  import opened RealSums
  import opened HmmPaths
  import IH = InteractionHistory

  /** The source's scaling: divide by the sum, unless the sum is zero. */
  ghost function Normalised(v: seq<real>): (r: seq<real>)
    ensures |r| == |v|
    ensures Sum(v) != 0.0 ==> forall s :: 0 <= s < |v| ==> r[s] == Quotient(v[s], Sum(v))
    ensures Sum(v) == 0.0 ==> r == v
  {
    var c := Sum(v);
    if c == 0.0 then v else seq(|v|, s requires 0 <= s < |v| => Quotient(v[s], c))
  }

  lemma NextVectorOfScaled(h: Params, v: seq<real>, k: real, o: nat)
    ensures NextVector(h, Scale(v, k), o) == Scale(NextVector(h, v, o), k)
  {
    forall s | 0 <= s < |v|
      ensures NextVector(h, Scale(v, k), o)[s] == Scale(NextVector(h, v, o), k)[s]
    {
      InflowsOfScaled(h, v, k, s);
      SumScale(Inflows(h, v, s), k);
      InflowDef(h, v, s);
      InflowDef(h, Scale(v, k), s);
      TimesRotate(Inflow(h, v, s), k, h.B(s, o));
    }
  }

  lemma InflowsOfScaled(h: Params, v: seq<real>, k: real, s: nat)
    ensures Inflows(h, Scale(v, k), s) == Scale(Inflows(h, v, s), k)
  {
    forall b | 0 <= b < |v|
      ensures Inflows(h, Scale(v, k), s)[b] == Scale(Inflows(h, v, s), k)[b]
    {
      TimesRotate(v[b], k, h.A(b, s));
    }
  }

  lemma InflowsNonNegative(h: Params, v: seq<real>, s: nat)
    requires h.AllNonNegative() && NonNegative(v)
    ensures NonNegative(Inflows(h, v, s))
  {
    forall b | 0 <= b < |v|
      ensures Inflows(h, v, s)[b] >= 0.0
    {
      assert h.A(b, s) >= 0.0;
      TimesNonNegative(v[b], h.A(b, s));
    }
  }

  lemma NextVectorNonNegative(h: Params, v: seq<real>, o: nat)
    requires h.AllNonNegative() && NonNegative(v)
    ensures NonNegative(NextVector(h, v, o))
  {
    forall s | 0 <= s < |v|
      ensures NextVector(h, v, o)[s] >= 0.0
    {
      InflowsNonNegative(h, v, s);
      SumNonNegative(Inflows(h, v, s));
      InflowDef(h, v, s);
      assert h.B(s, o) >= 0.0;
      TimesNonNegative(Inflow(h, v, s), h.B(s, o));
    }
  }

  lemma FirstVectorNonNegative(h: Params, o: nat)
    requires h.AllNonNegative()
    ensures NonNegative(FirstVector(h, o))
  {
    forall s | 0 <= s < h.States()
      ensures FirstVector(h, o)[s] >= 0.0
    {
      assert h.Pi(s) >= 0.0 && h.B(s, o) >= 0.0;
      TimesNonNegative(h.Pi(s), h.B(s, o));
    }
  }

  /** Scaling loses nothing: multiplying back by the scaling factor restores the vector. */
  lemma NormalisedRestores(v: seq<real>, k: real)
    requires NonNegative(v)
    ensures NonNegative(Normalised(v))
    ensures Scale(Normalised(v), Times(k, Sum(v))) == Scale(v, k)
  {
    var c := Sum(v);
    SumNonNegative(v);
    forall s | 0 <= s < |v|
      ensures Normalised(v)[s] >= 0.0
      ensures Times(Normalised(v)[s], Times(k, c)) == Times(v[s], k)
    {
      SumBounds(v, s);
      if c != 0.0 {
        RestoreOne(v[s], c, k);
      } else {
        assert v[s] == 0.0;
        TimesZero(Times(k, c));
        TimesZero(k);
      }
    }
  }

  lemma RestoreOne(x: real, c: real, k: real)
    requires c > 0.0 && x >= 0.0
    ensures Quotient(x, c) >= 0.0 && Times(Quotient(x, c), Times(k, c)) == Times(x, k)
  {
    var q := Quotient(x, c);
    QuotientDef(x, c);
    TimesDef(k, c);
    TimesDef(x, k);
    TimesDef(q, Times(k, c));
    assert q * c == x;
    assert q * (k * c) == (q * c) * k;
  }

  /** `v`, scaled back by the product `k` of all factors so far, is the forward vector `f`. */
  ghost predicate Represents(v: seq<real>, k: real, f: seq<real>) {
    NonNegative(v) && Scale(v, k) == f && k == Sum(f)
  }

  lemma FirstStep(h: Params, o: nat, v: seq<real>)
    requires h.AllNonNegative() && v == FirstVector(h, o)
    ensures Represents(Normalised(v), Sum(v), v)
  {
    FirstVectorNonNegative(h, o);
    NormalisedRestores(v, 1.0);
    TimesOne(Sum(v));
    forall s | 0 <= s < |v|
      ensures Scale(v, 1.0)[s] == v[s]
    {
      TimesOne(v[s]);
    }
    assert Scale(v, 1.0) == v;
  }

  lemma LaterStep(h: Params, o: nat, v: seq<real>, k: real, f: seq<real>)
    requires h.AllNonNegative() && Represents(v, k, f)
    ensures var raw := NextVector(h, v, o);
            Represents(Normalised(raw), Times(k, Sum(raw)), NextVector(h, f, o))
  {
    var raw := NextVector(h, v, o);
    NextVectorNonNegative(h, v, o);
    NextVectorOfScaled(h, v, k, o);
    NormalisedRestores(raw, k);
    SumScale(raw, k);
    TimesDef(k, Sum(raw));
    TimesDef(Sum(raw), k);
  }

  ghost function Column(alpha: array2<real>, t: nat): (r: seq<real>)
    requires t < alpha.Length1
    reads alpha
    ensures |r| == alpha.Length0 && forall s :: 0 <= s < |r| ==> r[s] == alpha[s, t]
  {
    seq(alpha.Length0, s requires 0 <= s < alpha.Length0 reads alpha => alpha[s, t])
  }

  /** What the recursion at time t reads as alpha[.][t-1]; at t = 0 that is memory before the column. */
  ghost function Previous(alpha: array2<real>, t: nat, before: seq<real>): seq<real>
    requires t < alpha.Length1
    reads alpha
  {
    if t == 0 then before else Column(alpha, t - 1)
  }

  /** Only cell (s1, t) of the table may differ. */
  twostate predicate OnlyCell(alpha: array2<real>, s1: nat, t: nat)
    reads alpha
  {
    forall s, u :: 0 <= s < alpha.Length0 && 0 <= u < alpha.Length1 && (s != s1 || u != t) ==>
      alpha[s, u] == old(alpha[s, u])
  }

  /** The inner loop over source states, accumulating into alpha[s1][t]. */
  method Gather(h: Params, alpha: array2<real>, t: nat, s1: nat, before: seq<real>, ghost prev: seq<real>)
    requires s1 < alpha.Length0 == |before| && t < alpha.Length1 && prev == Previous(alpha, t, before)
    modifies alpha
    ensures alpha[s1, t] == Inflow(h, prev, s1) && OnlyCell(alpha, s1, t)
  {
    InflowDef(h, prev, s1);
    ghost var ins := Inflows(h, prev, s1);
    alpha[s1, t] := 0.0;
    for s2 := 0 to alpha.Length0
      invariant OnlyCell(alpha, s1, t)
      invariant alpha[s1, t] == Sum(ins[..s2])
    {
      SumPrefixStep(ins, s2);
      var x := if t == 0 then before[s2] else alpha[s2, t - 1];
      TimesDef(x, h.A(s2, s1));
      alpha[s1, t] := alpha[s1, t] + x * h.A(s2, s1);
    }
    assert ins[..|ins|] == ins;
  }

  method FillCell(
    h: Params, alpha: array2<real>, t: nat, s1: nat, o: nat, first: bool, before: seq<real>, ghost prev: seq<real>)
    requires s1 < alpha.Length0 == |before| && t < alpha.Length1 && prev == Previous(alpha, t, before)
    modifies alpha
    ensures alpha[s1, t] == Times(if first then h.Pi(s1) else Inflow(h, prev, s1), h.B(s1, o))
    ensures OnlyCell(alpha, s1, t)
  {
    if first {
      alpha[s1, t] := h.Pi(s1);
    } else {
      Gather(h, alpha, t, s1, before, prev);
    }
    TimesDef(alpha[s1, t], h.B(s1, o));
    alpha[s1, t] := alpha[s1, t] * h.B(s1, o);
  }

  /** The scaling loop: divides column `t` by `c`. */
  method ScaleColumn(alpha: array2<real>, t: nat, c: real)
    requires t < alpha.Length1 && c != 0.0
    modifies alpha
    ensures forall s :: 0 <= s < alpha.Length0 ==> alpha[s, t] == Quotient(old(alpha[s, t]), c)
  {
    for i := 0 to alpha.Length0
      invariant forall s :: 0 <= s < i ==> alpha[s, t] == Quotient(old(alpha[s, t]), c)
      invariant forall s :: i <= s < alpha.Length0 ==> alpha[s, t] == old(alpha[s, t])
    {
      QuotientDef(alpha[i, t], c);
      alpha[i, t] := alpha[i, t] / c;
    }
  }

  /** The loop over target states: fills column `t` and sums it. */
  method FillRaw(
    h: Params, alpha: array2<real>, t: nat, o: nat, first: bool, before: seq<real>, ghost raw: seq<real>)
    returns (c: real)
    requires alpha.Length0 == h.States() == |before| && t < alpha.Length1
    requires raw == RawColumn(h, Previous(alpha, t, before), o, first)
    modifies alpha
    ensures Column(alpha, t) == raw
    ensures c == Sum(raw)
  {
    var n := h.States();
    ghost var prev := Previous(alpha, t, before);
    c := 0.0;
    for s1 := 0 to n
      invariant c == Sum(raw[..s1])
      invariant forall s :: 0 <= s < s1 ==> alpha[s, t] == raw[s]
      invariant Previous(alpha, t, before) == prev
    {
      FillCell(h, alpha, t, s1, o, first, before, prev);
      SumPrefixStep(raw, s1);
      c := c + alpha[s1, t];
      assert t > 0 ==> Column(alpha, t - 1) == prev;
    }
    assert raw[..n] == raw;
  }

  /** One pass of the main loop body: fills, sums and scales column `t` for observation `o`. */
  method FillColumn(
    h: Params, alpha: array2<real>, t: nat, o: nat, first: bool, before: seq<real>, ghost raw: seq<real>)
    returns (c: real)
    requires alpha.Length0 == h.States() == |before| && t < alpha.Length1
    requires raw == RawColumn(h, Previous(alpha, t, before), o, first)
    modifies alpha
    ensures Column(alpha, t) == Normalised(raw)
    ensures c == Sum(raw)
  {
    c := FillRaw(h, alpha, t, o, first, before, raw);
    if c != 0.0 {
      ScaleColumn(alpha, t, c);
    }
  }

  /**
   hmm_observation_probability. `stale` is what the stack array c holds on entry and `before` what is
   read as alpha[.][-1] when the history is empty: the source initialises neither, and its final loop
   multiplies all size + 1 entries of c.
   */
  method ObservationProbability(
    h: Params, numObs: nat, ob: nat, hist: IH.Ring, before: seq<real>, stale: seq<real>) returns (p: real)
    requires h.WellFormed(numObs) && h.AllNonNegative() && ob < numObs
    requires hist.Valid() && hist.size < 255 && forall o :: o in hist.Contents() ==> o < numObs
    requires |before| == h.States() && |stale| == hist.size + 1
    ensures hist.count > 0 ==>
              p == Returned(h, hist.Contents() + [ob], stale)
    ensures hist.count == hist.size ==> p == ObservationsProbability(h, hist.Contents() + [ob])
    ensures hist.count == 0 ==> p == ReturnedWhenEmpty(h, ob, before, stale)
  {
    var alpha := new real[h.States(), hist.size + 1];
    var c := new real[hist.size + 1](i requires 0 <= i < |stale| => stale[i]);
    assert c[..] == stale;
    ghost var w := hist.Contents() + [ob];
    p := Evaluate(h, alpha, c, hist, ob, before, stale, w);
  }

  /** A whole run: the observations are pushed into a new ring, then the next one is assessed. */
  method ProbabilityAfterRun(
    h: Params, numObs: nat, size: nat, xs: seq<nat>, ob: nat, before: seq<real>, stale: seq<real>) returns (p: real)
    requires h.WellFormed(numObs) && h.AllNonNegative() && ob < numObs
    requires 0 < size < 255 && forall k :: 0 <= k < |xs| ==> xs[k] < numObs
    requires |before| == h.States() && |stale| == size + 1
    ensures |xs| >= size ==> p == ObservationsProbability(h, xs[|xs| - size..] + [ob])
  {
    var hist := PushAll(size, xs);
    assert forall o :: o in hist.Contents() ==> o in xs;
    p := ObservationProbability(h, numObs, ob, hist, before, stale);
  }

  /** A new ring after a run of pushes. */
  method PushAll(size: nat, xs: seq<nat>) returns (hist: IH.Ring)
    requires 0 < size
    ensures fresh(hist) && fresh(hist.interactions) && hist.Valid() && hist.size == size
    ensures hist.Contents() == IH.LastN(xs, size)
  {
    hist := new IH.Ring(size);
    for k := 0 to |xs|
      invariant hist.Valid() && hist.size == size && fresh(hist) && fresh(hist.interactions)
      invariant hist.Contents() == IH.PushedAll([], size, xs[..k])
    {
      assert xs[..k + 1][..k] == xs[..k];
      hist.Push(xs[k]);
    }
    assert xs[..|xs|] == xs;
    IH.PushesKeepLast(size, xs);
  }

  /** The body of hmm_observation_probability over its two stack arrays. */
  method Evaluate(
    h: Params, alpha: array2<real>, c: array<real>, hist: IH.Ring, ob: nat, before: seq<real>,
    ghost stale: seq<real>, ghost w: seq<nat>) returns (p: real)
    requires h.AllNonNegative() && alpha.Length0 == h.States() == |before|
    requires hist.Valid() && alpha.Length1 == c.Length == |stale| == hist.size + 1
    requires w == hist.Contents() + [ob] && c[..] == stale
    modifies alpha, c
    ensures hist.count > 0 ==> p == Times(ObservationsProbability(h, w), Product(stale[hist.count + 1..]))
    ensures 0 < hist.count == hist.size ==> p == ObservationsProbability(h, w)
    ensures hist.count == 0 ==> p == ReturnedWhenEmpty(h, ob, before, stale)
  {
    FillTable(h, alpha, c, hist, before, stale, w);
    Observe(h, alpha, c, hist.count, ob, false, before, stale, w);
    p := Terminate(h, Column(alpha, hist.count), c, hist.count, ob, before, stale, w);
  }

  /** The termination loop, after t observations and the new one. */
  method Terminate(
    h: Params, ghost col: seq<real>, c: array<real>, ghost t: nat, ghost ob: nat, ghost before: seq<real>,
    ghost stale: seq<real>, ghost w: seq<nat>) returns (p: real)
    requires c.Length == |stale| && t < c.Length && |w| == t + 1
    requires t > 0 ==> Filled(h, col, c[..], t + 1, stale, w)
    requires t == 0 ==> c[..] == stale[0 := Sum(NextVector(h, before, ob))]
    ensures t > 0 ==> p == Times(ObservationsProbability(h, w), Product(stale[t + 1..]))
    ensures t > 0 && t + 1 == c.Length ==> p == ObservationsProbability(h, w)
    ensures t == 0 ==> p == ReturnedWhenEmpty(h, ob, before, stale)
  {
    p := ProductOf(c);
    ghost var factors := c[..];
    if t > 0 {
      FilledProduct(h, col, factors, t, stale, w);
    } else {
      ProductUncons(factors, stale);
    }
  }

  lemma ProductUncons(c: seq<real>, stale: seq<real>)
    requires |c| == |stale| > 0 && c[1..] == stale[1..]
    ensures Product(c) == Times(c[0], Product(stale[1..]))
  {
    assert c == ([] + [c[0]]) + c[1..];
    ProductConcat([] + [c[0]], c[1..]);
    ProductSnoc([], c[0]);
    TimesOne(c[0]);
  }

  /** Initialisation and recursion: one column for each observation the iterator yields. */
  method FillTable(
    h: Params, alpha: array2<real>, c: array<real>, hist: IH.Ring, before: seq<real>,
    ghost stale: seq<real>, ghost w: seq<nat>)
    requires h.AllNonNegative() && alpha.Length0 == h.States() == |before|
    requires hist.Valid() && alpha.Length1 == c.Length == |stale| == hist.size + 1
    requires hist.Contents() <= w && c[..] == stale
    modifies alpha, c
    ensures Filled(h, Previous(alpha, hist.count, before), c[..], hist.count, stale, w)
  {
    var cursor := IH.Null;
    var t := 0;
    while t < hist.count
      invariant t <= hist.count
      invariant t > 0 ==> cursor == hist.CursorAt(t - 1)
      invariant Filled(h, Previous(alpha, t, before), c[..], t, stale, w)
    {
      if t == 0 {
        cursor := hist.Iter();
      } else {
        cursor := hist.Next(cursor, t - 1);
      }
      assert cursor != IH.Null;
      var o := hist.Get(cursor, t);
      Observe(h, alpha, c, t, o, t == 0, before, stale, w);
      t := t + 1;
    }
  }

  /** Column `t` takes in the next observation of `w`. */
  method Observe(
    h: Params, alpha: array2<real>, c: array<real>, t: nat, o: nat, first: bool, before: seq<real>,
    ghost stale: seq<real>, ghost w: seq<nat>)
    requires h.AllNonNegative() && alpha.Length0 == h.States() == |before| && alpha.Length1 == c.Length
    requires t < c.Length && t < |w| && o == w[t] && (first ==> t == 0)
    requires Filled(h, Previous(alpha, t, before), c[..], t, stale, w)
    modifies alpha, c
    ensures first || t > 0 ==> Filled(h, Column(alpha, t), c[..], t + 1, stale, w)
    ensures !first && t == 0 ==> c[..] == old(c[..])[0 := Sum(NextVector(h, before, o))]
  {
    ghost var col := Previous(alpha, t, before);
    ghost var raw := RawColumn(h, col, o, first);
    if first || t > 0 {
      FilledStep(h, col, c[..], t, first, stale, w, raw);
    }
    var total := FillColumn(h, alpha, t, o, first, before, raw);
    ghost var factors := c[..];
    c[t] := total;
    assert c[..] == factors[t := total];
  }

  lemma FilledProduct(h: Params, col: seq<real>, c: seq<real>, t: nat, stale: seq<real>, w: seq<nat>)
    requires Filled(h, col, c, t + 1, stale, w) && |w| == t + 1
    ensures Product(c) == Times(ObservationsProbability(h, w), Product(stale[t + 1..]))
    ensures t + 1 == |c| ==> Product(c) == ObservationsProbability(h, w)
  {
    assert w[..t + 1] == w;
    FactorsProduct(h, c, t, stale, w);
  }

  lemma FactorsProduct(h: Params, c: seq<real>, t: nat, stale: seq<real>, w: seq<nat>)
    requires t < |c| == |stale| && |w| > 0
    requires c[t + 1..] == stale[t + 1..] && Product(c[..t + 1]) == Sum(Forward(h, w))
    ensures Product(c) == Times(ObservationsProbability(h, w), Product(stale[t + 1..]))
    ensures t + 1 == |c| ==> Product(c) == ObservationsProbability(h, w)
  {
    assert c == c[..t + 1] + stale[t + 1..];
    ProductConcat(c[..t + 1], stale[t + 1..]);
    ForwardIsPathSum(h, w);
    if t + 1 == |c| {
      TimesOne(ObservationsProbability(h, w));
    }
  }

  /** The termination loop. */
  method ProductOf(c: array<real>) returns (p: real)
    ensures p == Product(c[..])
  {
    p := 1.0;
    for i := 0 to c.Length
      invariant p == Product(c[..i])
    {
      ProductSnoc(c[..i], c[i]);
      assert c[..i + 1] == c[..i] + [c[i]];
      TimesDef(p, c[i]);
      p := p * c[i];
    }
    assert c[..c.Length] == c[..];
  }

  /** After `t` observations: `col` is the last column and c[..t] the factors so far. */
  ghost predicate Filled(h: Params, col: seq<real>, c: seq<real>, t: nat, stale: seq<real>, w: seq<nat>) {
    && t <= |c| == |stale| && t <= |w|
    && c[t..] == stale[t..]
    && (t > 0 ==> Represents(col, Product(c[..t]), Forward(h, w[..t])))
  }

  /** The vector the source computes at time t, before scaling. */
  ghost function RawColumn(h: Params, col: seq<real>, o: nat, first: bool): seq<real> {
    if first then FirstVector(h, o) else NextVector(h, col, o)
  }

  lemma FilledStep(
    h: Params, col: seq<real>, c: seq<real>, t: nat, first: bool, stale: seq<real>, w: seq<nat>, raw: seq<real>)
    requires h.AllNonNegative() && Filled(h, col, c, t, stale, w) && t < |c| && t < |w|
    requires raw == RawColumn(h, col, w[t], first) && (first <==> t == 0)
    ensures Filled(h, Normalised(raw), c[t := Sum(raw)], t + 1, stale, w)
  {
    var c' := c[t := Sum(raw)];
    assert c'[..t + 1] == c[..t] + [Sum(raw)];
    assert c'[t + 1..] == c[t..][1..] == stale[t + 1..];
    if first {
      FirstRepresents(h, w, raw);
      assert c[..t] == [];
    } else {
      LaterRepresents(h, w, t, col, c[..t]);
    }
  }

  lemma FirstRepresents(h: Params, w: seq<nat>, raw: seq<real>)
    requires h.AllNonNegative() && |w| > 0 && raw == FirstVector(h, w[0])
    ensures Represents(Normalised(raw), Product([] + [Sum(raw)]), Forward(h, w[..1]))
  {
    FirstStep(h, w[0], raw);
    ProductSnoc([], Sum(raw));
    TimesOne(Sum(raw));
  }

  lemma {:induction false} ForwardSnoc(h: Params, w: seq<nat>, t: nat)
    requires 0 < t < |w|
    ensures Forward(h, w[..t + 1]) == NextVector(h, Forward(h, w[..t]), w[t])
  {
    assert w[..t + 1][..t] == w[..t];
  }

  lemma {:induction false} LaterRepresents(h: Params, w: seq<nat>, t: nat, prev: seq<real>, done: seq<real>)
    requires h.AllNonNegative() && 0 < t < |w| && Represents(prev, Product(done), Forward(h, w[..t]))
    ensures var raw := NextVector(h, prev, w[t]);
            Represents(Normalised(raw), Product(done + [Sum(raw)]), Forward(h, w[..t + 1]))
  {
    LaterStep(h, w[t], prev, Product(done), Forward(h, w[..t]));
    ProductSnoc(done, Sum(NextVector(h, prev, w[t])));
    ForwardSnoc(h, w, t);
  }

  /** The value the source returns for an empty history: every factor but c[0] is stack content. */
  ghost function ReturnedWhenEmpty(h: Params, ob: nat, before: seq<real>, stale: seq<real>): real
    requires |stale| > 0
  {
    Times(Sum(NextVector(h, before, ob)), Product(stale[1..]))
  }

  ghost function Zeros(n: nat): seq<real> {
    seq(n, _ => 0.0)
  }

  lemma ProductOfZeros(n: nat, from: nat)
    requires from < n
    ensures Product(Zeros(n)[from..]) == 0.0
  {
    var tail := Zeros(n)[from..];
    assert tail[|tail| - 1] == 0.0;
    TimesZero(Product(tail[..|tail| - 1]));
  }

  /** The value the source returns for a non-empty history of `count` observations. */
  ghost function Returned(h: Params, w: seq<nat>, stale: seq<real>): real
    requires 1 < |w| <= |stale|
  {
    Times(ObservationsProbability(h, w), Product(stale[|w|..]))
  }

  /**
   The result is the path-sum probability whatever the stack held, exactly when the ring is full
   (every entry of c was written) or the probability is zero anyway.
   */
  lemma ExactIffFull(h: Params, size: nat, w: seq<nat>)
    requires 1 < |w| <= size + 1
    ensures (forall stale: seq<real> :: |stale| == size + 1 ==> Returned(h, w, stale) == ObservationsProbability(h, w))
       <==> |w| == size + 1 || ObservationsProbability(h, w) == 0.0
  {
    var p := ObservationsProbability(h, w);
    if |w| == size + 1 || p == 0.0 {
      forall stale: seq<real> | |stale| == size + 1
        ensures Returned(h, w, stale) == p
      {
        TimesOne(p);
        TimesZero(Product(stale[|w|..]));
      }
    } else {
      ProductOfZeros(size + 1, |w|);
      TimesZero(p);
      assert Returned(h, w, Zeros(size + 1)) == 0.0;
    }
  }
}
