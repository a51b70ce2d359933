/** Finite sums and products of reals, shared by the numeric modules. */
module RealSums {
  import opened Common

  // Products and quotients are named functions whose meaning is available only through TimesDef and
  // QuotientDef. Equal factors then give equal products by congruence, and nonlinear arithmetic
  // stays inside the few lemmas that ask for it.

  ghost predicate IsProduct(x: real, y: real, z: real) {
    forall k :: Unfolding(k) ==> z == x * y
  }

  ghost function Times(x: real, y: real): real {
    assert IsProduct(x, y, x * y);
    var z :| IsProduct(x, y, z);
    z
  }

  lemma TimesDef(x: real, y: real)
    ensures Times(x, y) == x * y
  {
    assert Unfolding(0);
  }

  ghost predicate IsQuotient(x: real, y: real, z: real)
    requires y != 0.0
  {
    forall k :: Unfolding(k) ==> z == x / y
  }

  ghost function Quotient(x: real, y: real): real
    requires y != 0.0
  {
    assert IsQuotient(x, y, x / y);
    var z :| IsQuotient(x, y, z);
    z
  }

  lemma QuotientDef(x: real, y: real)
    requires y != 0.0
    ensures Quotient(x, y) == x / y
  {
    assert Unfolding(0);
  }

  lemma TimesZero(x: real)
    ensures Times(x, 0.0) == Times(0.0, x) == 0.0
  {
    TimesDef(x, 0.0);
    TimesDef(0.0, x);
  }

  lemma TimesOne(x: real)
    ensures Times(x, 1.0) == Times(1.0, x) == x
  {
    TimesDef(x, 1.0);
    TimesDef(1.0, x);
  }

  lemma TimesSum(x: real, y: real, k: real)
    ensures Times(x + y, k) == Times(x, k) + Times(y, k)
  {
    TimesDef(x + y, k);
    TimesDef(x, k);
    TimesDef(y, k);
  }

  lemma TimesNonNegative(x: real, y: real)
    requires x >= 0.0 && y >= 0.0
    ensures Times(x, y) >= 0.0
  {
    TimesDef(x, y);
  }

  lemma TimesAssociative(x: real, y: real, z: real)
    ensures Times(Times(x, y), z) == Times(x, Times(y, z))
  {
    TimesDef(x, y);
    TimesDef(y, z);
    TimesDef(Times(x, y), z);
    TimesDef(x, Times(y, z));
  }

  lemma TimesRotate(x: real, y: real, z: real)
    ensures Times(Times(x, y), z) == Times(Times(x, z), y)
  {
    TimesDef(x, y);
    TimesDef(x, z);
    TimesDef(Times(x, y), z);
    TimesDef(Times(x, z), y);
  }

  /** The sum of a vector; the recursion follows a loop that accumulates from the front. */
  function Sum(v: seq<real>): real {
    if |v| == 0 then 0.0 else Sum(v[..|v| - 1]) + v[|v| - 1]
  }

  ghost function Product(v: seq<real>): real {
    if |v| == 0 then 1.0 else Times(Product(v[..|v| - 1]), v[|v| - 1])
  }

  ghost function Scale(v: seq<real>, k: real): (r: seq<real>)
    ensures |r| == |v| && forall i :: 0 <= i < |v| ==> r[i] == Times(v[i], k)
  {
    seq(|v|, i requires 0 <= i < |v| => Times(v[i], k))
  }

  ghost predicate NonNegative(v: seq<real>) {
    forall i :: 0 <= i < |v| ==> v[i] >= 0.0
  }

  lemma SumSnoc(v: seq<real>, x: real)
    ensures Sum(v + [x]) == Sum(v) + x
  {
    assert (v + [x])[..|v|] == v;
  }

  lemma SumPrefixStep(v: seq<real>, k: nat)
    requires k < |v|
    ensures Sum(v[..k + 1]) == Sum(v[..k]) + v[k]
  {
    assert v[..k + 1][..k] == v[..k];
  }

  lemma {:induction false} SumConcat(a: seq<real>, b: seq<real>)
    ensures Sum(a + b) == Sum(a) + Sum(b)
    decreases |b|
  {
    if |b| == 0 {
      assert a + b == a;
    } else {
      var b' := b[..|b| - 1];
      SumConcat(a, b');
      assert (a + b)[..|a + b| - 1] == a + b';
    }
  }

  lemma {:induction false} SumScale(v: seq<real>, k: real)
    ensures Sum(Scale(v, k)) == Times(Sum(v), k)
  {
    if |v| == 0 {
      TimesZero(k);
    } else {
      var w := v[..|v| - 1];
      SumScale(w, k);
      TimesSum(Sum(w), v[|v| - 1], k);
      assert Scale(v, k)[..|v| - 1] == Scale(w, k);
    }
  }

  lemma {:induction false} SumNonNegative(v: seq<real>)
    requires NonNegative(v)
    ensures Sum(v) >= 0.0
  {
    if |v| > 0 {
      SumNonNegative(v[..|v| - 1]);
    }
  }

  /** A non-negative vector bounds each of its entries by its sum. */
  lemma {:induction false} SumBounds(v: seq<real>, i: nat)
    requires NonNegative(v) && i < |v|
    ensures v[i] <= Sum(v)
  {
    var w := v[..|v| - 1];
    SumNonNegative(w);
    if i < |v| - 1 {
      SumBounds(w, i);
    }
  }

  lemma ProductSnoc(v: seq<real>, x: real)
    ensures Product(v + [x]) == Times(Product(v), x)
  {
    assert (v + [x])[..|v|] == v;
  }

  lemma {:induction false} ProductConcat(a: seq<real>, b: seq<real>)
    ensures Product(a + b) == Times(Product(a), Product(b))
    decreases |b|
  {
    if |b| == 0 {
      assert a + b == a;
      TimesOne(Product(a));
    } else {
      var b' := b[..|b| - 1];
      ProductConcat(a, b');
      TimesAssociative(Product(a), Product(b'), b[|b| - 1]);
      assert (a + b)[..|a + b| - 1] == a + b';
    }
  }
}
